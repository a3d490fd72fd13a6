/**
 * The per-username cookie cache: the cookie file as `JSON.parse` leaves it, what
 * `loadCookiesFromFile` makes of one username's entry, and the read-merge-write of
 * `saveCookies`.
 */
module CookieCache {
  import opened JsValues

  /** A cookie in the HTTP client's cookie jar. `expires` is in milliseconds; `None` is a session cookie. */
  datatype Cookie = Cookie(key: string, value: string, expires: Option<int>, domain: string, path: string)

  /**
   * One element of a username's array in the file. A JSON `null` makes `cookie.key` throw;
   * any other element reads as a record whose properties may be missing. An `expires` that
   * `new Date` cannot turn into a date is `None`.
   */
  datatype Item =
    | NullItem
    | Record(key: Option<string>, value: Option<string>, expires: Option<int>, domain: string, path: string)

  /** The value stored under a username: falsy (or missing), truthy but not an array, or an array. */
  datatype Entry = Falsy | NonArray | Array(items: seq<Item>)

  /**
   * The cookie file: absent (ENOENT), failing to read or to parse as JSON, or parsed to an
   * object mapping usernames to entries.
   */
  datatype FileState = Missing | Unreadable | Parsed(entries: map<string, Entry>)

  /** The cookie file and whether writing it succeeds. */
  datatype Disk = Disk(file: FileState, writable: bool)

  /** The values `loadCookiesFromFile` returns: `true`, "expired", "invalid", "notfound", "error". */
  datatype LoadResult = Loaded | Expired | Invalid | NotFound | Error

  /** What loading returns and the cookies it puts into the jar, in order. */
  datatype LoadReport = LoadReport(result: LoadResult, added: seq<Cookie>)

  /** The outcome `saveCookies` reports: created, updated, or "errorSavingCookies". */
  datatype SaveReport = Created | Updated | SaveFailed

  function EntryOf(m: map<string, Entry>, user: string): Entry {
    if user in m then m[user] else Falsy
  }

  /** An element passing `cookie.key && cookie.value`. */
  predicate ValidRecord(item: Item) {
    item.Record? && Truthy(item.key) && Truthy(item.value)
  }

  predicate AllValidRecords(items: seq<Item>) {
    forall i :: 0 <= i < |items| ==> ValidRecord(items[i])
  }

  /** `j` is the first element that fails the `every` test. */
  predicate FirstFailure(items: seq<Item>, j: int) {
    0 <= j < |items| && !ValidRecord(items[j]) && forall i :: 0 <= i < j ==> ValidRecord(items[i])
  }

  /** How `every` ends: all pass, a record fails, or a `null` element throws. */
  datatype Scan = AllValid | FoundInvalid | HitNull

  /** `loadedCookies.every(cookie => cookie.key && cookie.value)`, scanning left to right. */
  function ScanItems(items: seq<Item>): Scan {
    if items == [] then AllValid
    else if items[0].NullItem? then HitNull
    else if !ValidRecord(items[0]) then FoundInvalid
    else ScanItems(items[1..])
  }

  /** The scan passes exactly when every element is a valid record; otherwise it stops at the first failure. */
  lemma {:induction false} ScanOutcome(items: seq<Item>)
    ensures ScanItems(items) == AllValid <==> AllValidRecords(items)
    ensures ScanItems(items) != AllValid ==>
              exists j :: FirstFailure(items, j) &&
                          (ScanItems(items) == HitNull <==> items[j].NullItem?)
  {
    if items != [] && ValidRecord(items[0]) {
      ScanOutcome(items[1..]);
      if ScanItems(items[1..]) != AllValid {
        var j :| FirstFailure(items[1..], j) &&
                 (ScanItems(items[1..]) == HitNull <==> items[1..][j].NullItem?);
        assert FirstFailure(items, j + 1);
      }
    } else if items != [] {
      assert FirstFailure(items, 0);
    }
  }

  /** Only one element can be the first failure. */
  lemma FirstFailureUnique(items: seq<Item>, j: int, k: int)
    requires FirstFailure(items, j) && FirstFailure(items, k)
    ensures j == k
  {
  }

  /** A record whose expiry is strictly later than `now` (an unparseable expiry fails `>`). */
  predicate IsLive(item: Item, now: int) {
    item.Record? && item.expires.Some? && item.expires.value > now
  }

  /** The tough-cookie `Cookie` built from a file record. */
  function ToCookie(item: Item): Cookie
    requires item.Record?
  {
    Cookie(if item.key.Some? then item.key.value else "",
           if item.value.Some? then item.value.value else "",
           item.expires, item.domain, item.path)
  }

  /** The cookies the `forEach` puts into the jar: one per live record, in file order. */
  function Live(items: seq<Item>, now: int): seq<Cookie> {
    if items == [] then []
    else (if IsLive(items[0], now) then [ToCookie(items[0])] else []) + Live(items[1..], now)
  }

  lemma {:induction false} LiveAppend(a: seq<Item>, b: seq<Item>, now: int)
    ensures Live(a + b, now) == Live(a, now) + Live(b, now)
  {
    if a == [] {
      assert a + b == b;
    } else {
      var head := if IsLive(a[0], now) then [ToCookie(a[0])] else [];
      assert (a + b)[0] == a[0];
      assert (a + b)[1..] == a[1..] + b;
      LiveAppend(a[1..], b, now);
      calc {
        Live(a + b, now);
        head + Live(a[1..] + b, now);
        head + (Live(a[1..], now) + Live(b, now));
        (head + Live(a[1..], now)) + Live(b, now);
      }
    }
  }

  /** A cookie is added exactly when it comes from a record expiring strictly after `now`. */
  lemma {:induction false} LiveMembers(items: seq<Item>, now: int, c: Cookie)
    ensures c in Live(items, now) <==>
              exists i :: 0 <= i < |items| && IsLive(items[i], now) && ToCookie(items[i]) == c
  {
    if items != [] {
      LiveMembers(items[1..], now, c);
      if exists i :: 0 <= i < |items| && IsLive(items[i], now) && ToCookie(items[i]) == c {
        var i :| 0 <= i < |items| && IsLive(items[i], now) && ToCookie(items[i]) == c;
        if i > 0 {
          assert items[1..][i - 1] == items[i];
        }
      }
      if exists i :: 0 <= i < |items[1..]| && IsLive(items[1..][i], now) && ToCookie(items[1..][i]) == c {
        var i :| 0 <= i < |items[1..]| && IsLive(items[1..][i], now) && ToCookie(items[1..][i]) == c;
        assert items[i + 1] == items[1..][i];
      }
    }
  }

  /** Every cookie loaded into the jar expires strictly after `now`; session cookies never are. */
  lemma {:induction false} LiveAreUnexpired(items: seq<Item>, now: int)
    ensures forall c :: c in Live(items, now) ==> c.expires.Some? && c.expires.value > now
  {
    if items != [] {
      LiveAreUnexpired(items[1..], now);
    }
  }

  /** An array in which every record has expired adds nothing; a valid one still loads as `true`. */
  lemma {:induction false} AllExpiredLoadsNothing(items: seq<Item>, now: int)
    requires forall i :: 0 <= i < |items| ==> !IsLive(items[i], now)
    ensures Live(items, now) == []
    ensures AllValidRecords(items) ==> LoadEntry(Array(items), now) == LoadReport(Loaded, [])
  {
    if items != [] {
      AllExpiredLoadsNothing(items[1..], now);
    }
    if AllValidRecords(items) {
      LoadEntryAddsLive(items, now);
    }
  }

  /**
   * `loadCookiesFromFile` for one entry. The `return "expired"` inside the `forEach`
   * callback only ends that callback, so a valid array always yields `true`.
   */
  function LoadEntry(e: Entry, now: int): (r: LoadReport)
    ensures r.result == NotFound <==> e.Falsy?
    ensures r.result == Loaded <==> e.Array? && AllValidRecords(e.items)
    ensures e.NonArray? ==> r == LoadReport(Invalid, [])
    ensures r.result != Expired
    ensures r.result != Loaded ==> r.added == []
  {
    match e
    case Falsy => LoadReport(NotFound, [])
    case NonArray => LoadReport(Invalid, [])
    case Array(items) =>
      ScanOutcome(items);
      match ScanItems(items)
      case HitNull => LoadReport(Error, [])
      case FoundInvalid => LoadReport(Invalid, [])
      case AllValid => LoadReport(Loaded, Live(items, now))
  }

  /** A failing array is "error" when its first failure is a `null` element and "invalid" otherwise. */
  lemma LoadEntryFailure(items: seq<Item>, now: int, j: int)
    requires FirstFailure(items, j)
    ensures LoadEntry(Array(items), now).result == (if items[j].NullItem? then Error else Invalid)
  {
    ScanOutcome(items);
    var k :| FirstFailure(items, k) && (ScanItems(items) == HitNull <==> items[k].NullItem?);
    FirstFailureUnique(items, j, k);
  }

  /** Loading from a valid array adds exactly its live records, in order. */
  lemma LoadEntryAddsLive(items: seq<Item>, now: int)
    requires AllValidRecords(items)
    ensures LoadEntry(Array(items), now) == LoadReport(Loaded, Live(items, now))
  {
    ScanOutcome(items);
  }

  /** `loadCookiesFromFile` for `user` against the file as it stands. */
  function Load(file: FileState, user: string, now: int): (r: LoadReport)
    ensures file.Missing? ==> r == LoadReport(NotFound, [])
    ensures file.Unreadable? ==> r == LoadReport(Error, [])
    ensures r.result != Expired
    ensures r.result != Loaded ==> r.added == []
  {
    match file
    case Missing => LoadReport(NotFound, [])
    case Unreadable => LoadReport(Error, [])
    case Parsed(m) => LoadEntry(EntryOf(m, user), now)
  }

  /** `loadCookiesFromFile` never returns "expired", so the branch in `authenticate` that tests for it is dead. */
  lemma LoadNeverExpired(file: FileState, user: string, now: int)
    ensures Load(file, user, now).result != Expired
  {
  }

  /** A cookie as `JSON.stringify` writes it and `JSON.parse` reads it back. */
  function AsItem(c: Cookie): Item {
    Record(Some(c.key), Some(c.value), c.expires, c.domain, c.path)
  }

  function Serialise(jar: seq<Cookie>): seq<Item> {
    if jar == [] then [] else [AsItem(jar[0])] + Serialise(jar[1..])
  }

  /**
   * `saveCookies`: read the file (a missing or unparseable one counts as `{}`), set the entry
   * of `user` to the jar's cookies, write the map back. The report says "updated" exactly
   * when the old file parsed.
   */
  function Save(disk: Disk, user: string, jar: seq<Cookie>): (r: (Disk, SaveReport))
    ensures !disk.writable ==> r == (disk, SaveFailed)
    ensures disk.writable ==> r.0.writable && r.0.file.Parsed? && user in r.0.file.entries
    ensures disk.writable ==> r.0.file.entries[user] == Array(Serialise(jar))
    ensures disk.writable && disk.file.Parsed? ==>
              r.0.file.entries.Keys == disk.file.entries.Keys + {user} &&
              forall u :: u in disk.file.entries && u != user ==> r.0.file.entries[u] == disk.file.entries[u]
    ensures disk.writable && !disk.file.Parsed? ==> r.0.file.entries.Keys == {user}
    ensures r.1 == Updated <==> disk.writable && disk.file.Parsed?
    ensures r.1 == Created <==> disk.writable && !disk.file.Parsed?
  {
    var existed := disk.file.Parsed?;
    var base := if existed then disk.file.entries else map[];
    if disk.writable then
      (Disk(Parsed(base[user := Array(Serialise(jar))]), true), if existed then Updated else Created)
    else
      (disk, SaveFailed)
  }

  /** A cookie that survives a save and a reload: non-empty key and value, expiry after `now`. */
  predicate Restorable(c: Cookie, now: int) {
    c.key != "" && c.value != "" && c.expires.Some? && c.expires.value > now
  }

  lemma {:induction false} SerialiseRestores(jar: seq<Cookie>, now: int)
    requires forall c :: c in jar ==> Restorable(c, now)
    ensures AllValidRecords(Serialise(jar))
    ensures Live(Serialise(jar), now) == jar
  {
    if jar != [] {
      assert jar[0] in jar;
      forall c | c in jar[1..] ensures Restorable(c, now) {
        assert c in jar;
      }
      SerialiseRestores(jar[1..], now);
      var s := Serialise(jar);
      assert s[0] == AsItem(jar[0]) && s[1..] == Serialise(jar[1..]);
      forall i | 0 <= i < |s| ensures ValidRecord(s[i]) {
        if i > 0 {
          assert s[i] == Serialise(jar[1..])[i - 1];
        }
      }
    }
  }

  /** Round trip: after a successful save, loading for the same user gives back exactly the jar. */
  lemma SaveThenLoad(disk: Disk, user: string, jar: seq<Cookie>, now: int)
    requires disk.writable
    requires forall c :: c in jar ==> Restorable(c, now)
    ensures Load(Save(disk, user, jar).0.file, user, now) == LoadReport(Loaded, jar)
  {
    SerialiseRestores(jar, now);
    LoadEntryAddsLive(Serialise(jar), now);
  }

  /** Isolation: a save for `user` leaves what any other username loads from a parsed file as it was. */
  lemma SaveKeepsOtherUsers(disk: Disk, user: string, other: string, jar: seq<Cookie>, now: int)
    requires disk.file.Parsed? && other != user
    ensures Load(Save(disk, user, jar).0.file, other, now) == Load(disk.file, other, now)
  {
  }
}
