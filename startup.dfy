/** Start-up recovery: when the main users or prices file is missing or is
    not valid JSON, the newest shutdown backup of that kind is loaded in its
    place. The directory listing, the files' creation times, whether each
    main file parses, and the parsed backups are parameters. */
module Startup {
  import opened Text
  import opened BotConfig
  import opened Prices
  import opened Users

  const USERS_BACKUP_PREFIX: string := "shutdown_backup_users_"
  const PRICES_BACKUP_PREFIX: string := "shutdown_backup_prices_"
  const BACKUP_SUFFIX: string := ".json"

  /** A directory entry with its creation time (`os.path.getctime`). */
  datatype FileEntry = FileEntry(name: string, ctime: real)

  /** A backup file of one kind: the kind's prefix and the `.json` suffix. */
  predicate IsBackup(f: FileEntry, prefix: string) {
    StartsWith(f.name, prefix) && EndsWith(f.name, BACKUP_SUFFIX)
  }

  /** The backups of one kind, in directory-listing order. */
  function Backups(files: seq<FileEntry>, prefix: string): (r: seq<FileEntry>)
    ensures forall f :: f in r <==> f in files && IsBackup(f, prefix)
    ensures |r| <= |files|
  {
    if files == [] then []
    else (if IsBackup(files[0], prefix) then [files[0]] else []) + Backups(files[1..], prefix)
  }

  /** The position `max(candidates, key=ctime)` picks: an element is
      replaced only by a strictly newer one, so among equally new files the
      first one listed wins. */
  function NewestIndex(c: seq<FileEntry>): (r: nat)
    requires |c| > 0
    ensures r < |c|
    ensures forall j :: 0 <= j < |c| ==> c[j].ctime <= c[r].ctime
    ensures forall j :: 0 <= j < r ==> c[j].ctime < c[r].ctime
    decreases |c|
  {
    if |c| == 1 then 0
    else
      var k := NewestIndex(c[..|c| - 1]);
      if c[|c| - 1].ctime > c[k].ctime then |c| - 1 else k
  }

  /** The two properties of `NewestIndex` determine the position: no other
      index is both newest and ahead of every equally new entry. */
  lemma {:induction false} NewestIndexUnique(c: seq<FileEntry>, i: nat)
    requires i < |c|
    requires forall j :: 0 <= j < |c| ==> c[j].ctime <= c[i].ctime
    requires forall j :: 0 <= j < i ==> c[j].ctime < c[i].ctime
    ensures NewestIndex(c) == i
  {
  }

  /** The name of the backup the start-up code would load for one kind of
      file, or `None` when it loads nothing: no data directory, a main file
      that parses, or no backup of that kind. */
  function Chosen(dataDirExists: bool, mainFileOk: bool, files: seq<FileEntry>, prefix: string): (r: Option<string>)
    ensures r.Some? <==> dataDirExists && !mainFileOk && exists f :: f in files && IsBackup(f, prefix)
    ensures r.Some? ==>
      exists f :: f in files && IsBackup(f, prefix) && f.name == r.value
        && forall g :: g in files && IsBackup(g, prefix) ==> g.ctime <= f.ctime
  {
    var backups := Backups(files, prefix);
    if !dataDirExists || mainFileOk || backups == [] then None
    else
      var newest := backups[NewestIndex(backups)];
      assert newest in backups;
      forall g | g in files && IsBackup(g, prefix) ensures g.ctime <= newest.ctime {
        assert g in backups;
      }
      Some(newest.name)
  }

  /** The fields read from a prices backup: `current_prices` and
      `price_history` when present, `last_update` when present, and whether
      that timestamp parses as ISO 8601. */
  datatype PriceBackup = PriceBackup(
    currentPrices: Option<map<string, real>>,
    priceHistory: Option<map<string, seq<HistoryEntry>>>,
    lastUpdate: Option<string>,
    lastUpdateParses: bool)

  /** `backup_data.get(key, {})` */
  function OrEmpty<K, V>(m: Option<map<K, V>>): (r: map<K, V>)
    ensures m.None? ==> r == map[]
    ensures m.Some? ==> r == m.value
  {
    if m.Some? then m.value else map[]
  }

  /** Whether the backup's `last_update` is restored: present, non-empty (a
      truthy string) and in ISO 8601 form. */
  predicate RestoresTimestamp(b: PriceBackup) {
    b.lastUpdate.Some? && b.lastUpdate.value != "" && b.lastUpdateParses
  }

  /** The users half of `restore_latest_backup`. `userBackups` holds the
      user backups that parse, by file name; a chosen backup missing from
      it is one whose reading failed, which leaves the users as they were. */
  method RestoreUsers(um: UserManager, dataDirExists: bool, usersFileOk: bool, files: seq<FileEntry>,
                      userBackups: map<string, map<string, Wallet>>)
    modifies um
    ensures var pick := Chosen(dataDirExists, usersFileOk, files, USERS_BACKUP_PREFIX);
      um.users == if pick.Some? && pick.value in userBackups then userBackups[pick.value] else old(um.users)
  {
    if dataDirExists && !usersFileOk {
      var backups := Backups(files, USERS_BACKUP_PREFIX);
      if backups != [] {
        var latest := backups[NewestIndex(backups)];
        if latest.name in userBackups {
          um.users := userBackups[latest.name];
        }
      }
    }
  }

  /** The prices half of `restore_latest_backup`. A `last_update` that
      fails to parse aborts the restore after the prices and history have
      been assigned. */
  method RestorePrices(pm: PriceManager, dataDirExists: bool, pricesFileOk: bool, files: seq<FileEntry>,
                       priceBackups: map<string, PriceBackup>)
    modifies pm
    ensures var pick := Chosen(dataDirExists, pricesFileOk, files, PRICES_BACKUP_PREFIX);
      if pick.Some? && pick.value in priceBackups then
        var b := priceBackups[pick.value];
        && pm.currentPrices == OrEmpty(b.currentPrices)
        && pm.priceHistory == OrEmpty(b.priceHistory)
        && pm.lastUpdate == (if RestoresTimestamp(b) then b.lastUpdate else old(pm.lastUpdate))
      else
        && pm.currentPrices == old(pm.currentPrices)
        && pm.priceHistory == old(pm.priceHistory)
        && pm.lastUpdate == old(pm.lastUpdate)
  {
    if dataDirExists && !pricesFileOk {
      var backups := Backups(files, PRICES_BACKUP_PREFIX);
      if backups != [] {
        var latest := backups[NewestIndex(backups)];
        if latest.name in priceBackups {
          var b := priceBackups[latest.name];
          pm.currentPrices := OrEmpty(b.currentPrices);
          pm.priceHistory := OrEmpty(b.priceHistory);
          if b.lastUpdate.Some? && b.lastUpdate.value != "" && b.lastUpdateParses {
            pm.lastUpdate := b.lastUpdate;
          }
        }
      }
    }
  }

  /** `restore_latest_backup`: without a data directory nothing happens;
      otherwise the users and the prices are each restored from their
      newest backup when their main file does not parse. */
  method RestoreLatestBackup(um: UserManager, pm: PriceManager, dataDirExists: bool,
                             usersFileOk: bool, pricesFileOk: bool, files: seq<FileEntry>,
                             userBackups: map<string, map<string, Wallet>>,
                             priceBackups: map<string, PriceBackup>)
    modifies um, pm
    ensures var pick := Chosen(dataDirExists, usersFileOk, files, USERS_BACKUP_PREFIX);
      um.users == if pick.Some? && pick.value in userBackups then userBackups[pick.value] else old(um.users)
    ensures var pick := Chosen(dataDirExists, pricesFileOk, files, PRICES_BACKUP_PREFIX);
      if pick.Some? && pick.value in priceBackups then
        var b := priceBackups[pick.value];
        && pm.currentPrices == OrEmpty(b.currentPrices)
        && pm.priceHistory == OrEmpty(b.priceHistory)
        && pm.lastUpdate == (if RestoresTimestamp(b) then b.lastUpdate else old(pm.lastUpdate))
      else
        && pm.currentPrices == old(pm.currentPrices)
        && pm.priceHistory == old(pm.priceHistory)
        && pm.lastUpdate == old(pm.lastUpdate)
  {
    if !dataDirExists {
      return;
    }
    RestoreUsers(um, dataDirExists, usersFileOk, files, userBackups);
    RestorePrices(pm, dataDirExists, pricesFileOk, files, priceBackups);
  }

  /** Where the `k`-th backup sits in the listing: every backup listed
      before it is one of the backups before it in the filtered list. */
  lemma {:induction false} BackupPosition(files: seq<FileEntry>, prefix: string, k: nat) returns (i: nat)
    requires k < |Backups(files, prefix)|
    ensures i < |files| && files[i] == Backups(files, prefix)[k]
    ensures forall j :: 0 <= j < i && IsBackup(files[j], prefix) ==> files[j] in Backups(files, prefix)[..k]
    decreases |files|
  {
    var b := Backups(files, prefix);
    var rest := Backups(files[1..], prefix);
    if !IsBackup(files[0], prefix) {
      assert b == rest;
      var i' := BackupPosition(files[1..], prefix, k);
      i := i' + 1;
      forall j | 0 <= j < i && IsBackup(files[j], prefix) ensures files[j] in b[..k] {
        assert files[j] == files[1..][j - 1];
      }
    } else if k == 0 {
      i := 0;
    } else {
      assert b == [files[0]] + rest;
      var i' := BackupPosition(files[1..], prefix, k - 1);
      i := i' + 1;
      assert b[..k] == [files[0]] + rest[..k - 1];
      forall j | 0 <= j < i && IsBackup(files[j], prefix) ensures files[j] in b[..k] {
        if j > 0 {
          assert files[j] == files[1..][j - 1];
        }
      }
    }
  }

  /** The backup chosen is the first one in listing order among the newest
      backups of its kind (Python's `max` keeps the first maximal element). */
  lemma {:induction false} ChosenIsFirstNewest(dataDirExists: bool, mainFileOk: bool, files: seq<FileEntry>, prefix: string)
    requires Chosen(dataDirExists, mainFileOk, files, prefix).Some?
    ensures exists i :: (
      && 0 <= i < |files| && IsBackup(files[i], prefix)
      && files[i].name == Chosen(dataDirExists, mainFileOk, files, prefix).value
      && (forall j :: 0 <= j < |files| && IsBackup(files[j], prefix) ==> files[j].ctime <= files[i].ctime)
      && (forall j :: 0 <= j < i && IsBackup(files[j], prefix) ==> files[j].ctime < files[i].ctime))
  {
    var b := Backups(files, prefix);
    var k := NewestIndex(b);
    var i := BackupPosition(files, prefix, k);
    assert files[i] in b;
    forall j | 0 <= j < |files| && IsBackup(files[j], prefix) ensures files[j].ctime <= files[i].ctime {
      assert files[j] in b;
    }
    forall j | 0 <= j < i && IsBackup(files[j], prefix) ensures files[j].ctime < files[i].ctime {
      var m :| 0 <= m < k && b[m] == files[j];
    }
  }
}
