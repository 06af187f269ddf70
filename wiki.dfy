/**
 * The revisioned wiki board: a current table holding the latest version
 * of every page, a backup table holding every superseded version under
 * the page key followed by the superseded version's date, and an
 * in-memory map from a writer's ip to the author last seen from it.
 *
 * The pure part (records, their fields, the store as a value and the
 * read and write steps as functions) comes first; the classes Board and
 * Entry below carry the same behaviour as objects updated in place.
 */
module WikiBoard {
  import opened Wrappers
  import opened Keys
  import opened Charset
  import opened Codec
  import opened Dates

  /** One stored version of a page: field name to text. */
  type Record = map<string, string>

  /** A table of the record engine: key to record. */
  type Table = map<string, Record>

  /** The width the backup table was created with: keyLength plus the date pattern's length. */
  const BackupKeyLength: nat := KeyLength + |DateFormat|

  // ---------------------------------------------------------------------
  // Building a record

  /** A null or empty author becomes "anonymous". */
  function AuthorOr(author: Option<string>): (a: string)
    ensures a != ""
    ensures author == None || author.value == "" ==> a == "anonymous"
    ensures author.Some? && author.value != "" ==> a == author.value
  {
    if author == None || |author.value| == 0 then "anonymous" else author.value
  }

  /** A null or empty ip or reason becomes "". */
  function OrEmpty(s: Option<string>): string {
    if s == None then "" else s.value
  }

  /** The "page" field: a null page is stored as "", any other page encoded. */
  function PageField(page: Option<seq<byte>>): string {
    if page == None then "" else Encode(page.value)
  }

  /** The record the public entry constructor fills in. */
  function NewRecord(now: Date, author: Option<string>, ip: Option<string>, reason: Option<string>,
                     page: Option<seq<byte>>): (r: Record)
    ensures r.Keys == {"date", "author", "ip", "reason", "page"}
    ensures r["date"] == DateString(now) && r["ip"] == OrEmpty(ip)
  {
    map["date" := DateString(now),
        "author" := Encode(Bytes(AuthorOr(author))),
        "ip" := OrEmpty(ip),
        "reason" := Encode(Bytes(OrEmpty(reason))),
        "page" := PageField(page)]
  }

  /** The author map after an entry is constructed: the ip's author is overwritten. */
  function Remember(authors: map<string, string>, ip: Option<string>, author: Option<string>): (r: map<string, string>)
    ensures r.Keys == authors.Keys + {OrEmpty(ip)}
    ensures r[OrEmpty(ip)] == AuthorOr(author)
    ensures forall other :: other in authors && other != OrEmpty(ip) ==> r[other] == authors[other]
  {
    authors[OrEmpty(ip) := AuthorOr(author)]
  }

  /** The author an ip was last seen with, if any. */
  function Guess(authors: map<string, string>, ip: string): (r: Option<string>)
    ensures r == None <==> ip !in authors
    ensures r != None ==> r.value == authors[ip]
  {
    if ip in authors then Some(authors[ip]) else None
  }

  /** Constructing an entry makes its author the guess for its ip and changes no other guess. */
  lemma RememberLastWins(authors: map<string, string>, ip: Option<string>, author: Option<string>)
    ensures Guess(Remember(authors, ip, author), OrEmpty(ip)) == Some(AuthorOr(author))
    ensures forall other :: other != OrEmpty(ip) ==> Guess(Remember(authors, ip, author), other) == Guess(authors, other)
  {
  }

  lemma RememberLocalhost(authors: map<string, string>)
    ensures Remember(authors, Some("127.0.0.1"), Some("anonymous")) == authors["127.0.0.1" := "anonymous"]
  {
  }

  /** What a read miss builds instead of returning nothing. */
  function Placeholder(now: Date): (r: Record)
    ensures r.Keys == {"date", "author", "ip", "reason", "page"}
    ensures r["date"] == DateString(now) && r["ip"] == "127.0.0.1"
  {
    NewRecord(now, Some("anonymous"), Some("127.0.0.1"), Some("New Page"), Some([]))
  }

  // ---------------------------------------------------------------------
  // Reading the fields of a record

  /** author(): a missing or undecodable field reads as "anonymous". */
  function AuthorOf(r: Record): (a: string)
    ensures "author" !in r ==> a == "anonymous"
    ensures "author" in r && Decode(r["author"]) == None ==> a == "anonymous"
  {
    if "author" !in r then "anonymous"
    else match Decode(r["author"])
      case None => "anonymous"
      case Some(b) => Text(b)
  }

  /** reason(): a missing field reads as "", an undecodable one as "unknown". */
  function ReasonOf(r: Record): (s: string)
    ensures "reason" !in r ==> s == ""
    ensures "reason" in r && Decode(r["reason"]) == None ==> s == "unknown"
  {
    if "reason" !in r then ""
    else match Decode(r["reason"])
      case None => "unknown"
      case Some(b) => Text(b)
  }

  /** page(): a missing or undecodable field reads as no bytes. */
  function PageOf(r: Record): (b: seq<byte>)
    ensures "page" !in r ==> b == []
    ensures "page" in r && Decode(r["page"]) == None ==> b == []
  {
    if "page" !in r then []
    else match Decode(r["page"])
      case None => []
      case Some(b) => b
  }

  /**
   * date(): an unparsable date reads as now. A missing field makes the
   * parser throw a NullPointerException, which the board does not catch:
   * None stands for that.
   */
  function DateOf(r: Record, now: Date): (d: Option<Date>)
    ensures d == None <==> "date" !in r
    ensures "date" in r && ParseDate(r["date"]) == None ==> d == Some(now)
  {
    if "date" !in r then None
    else match ParseDate(r["date"])
      case None => Some(now)
      case Some(d) => Some(d)
  }

  /** getAncestorDate(): parses the "date" field (not "bkp"); missing or unparsable is None. */
  function AncestorDateOf(r: Record): (d: Option<Date>)
    ensures d == None <==> "date" !in r || ParseDate(r["date"]) == None
    ensures d.Some? ==> "date" in r && r["date"] == DateString(d.value)
  {
    if "date" !in r then None
    else
      var d := ParseDate(r["date"]);
      if d == None then None else DateStringOfParse(r["date"]); d
  }

  /** getChildName(): the decoded "child" field; missing or undecodable is None. */
  function ChildNameOf(r: Record): (c: Option<string>)
    ensures c.Some? ==> "child" in r && Decode(r["child"]).Some?
  {
    if "child" !in r then None
    else match Decode(r["child"])
      case None => None
      case Some(b) => Some(Text(b))
  }

  /** hasChild(): written separately in the board, it agrees with getChildName(). */
  function HasChild(r: Record): (b: bool)
    ensures b <==> ChildNameOf(r).Some?
  {
    "child" in r && Decode(r["child"]).Some?
  }

  lemma NewRecordAuthor(now: Date, author: Option<string>, ip: Option<string>, reason: Option<string>,
                        page: Option<seq<byte>>)
    ensures AuthorOf(NewRecord(now, author, ip, reason, page)) == AuthorOr(author)
  {
    DecodeEncode(Bytes(AuthorOr(author)));
    TextOfBytes(AuthorOr(author));
  }

  lemma NewRecordReason(now: Date, author: Option<string>, ip: Option<string>, reason: Option<string>,
                        page: Option<seq<byte>>)
    ensures ReasonOf(NewRecord(now, author, ip, reason, page)) == OrEmpty(reason)
  {
    DecodeEncode(Bytes(OrEmpty(reason)));
    TextOfBytes(OrEmpty(reason));
  }

  lemma NewRecordPage(now: Date, author: Option<string>, ip: Option<string>, reason: Option<string>,
                      page: Option<seq<byte>>)
    ensures PageOf(NewRecord(now, author, ip, reason, page)) == if page == None then [] else page.value
  {
    if page != None {
      DecodeEncode(page.value);
    } else {
      assert Decode("") == Some([]);
    }
  }

  lemma NewRecordDate(now: Date, author: Option<string>, ip: Option<string>, reason: Option<string>,
                      page: Option<seq<byte>>)
    ensures DateOf(NewRecord(now, author, ip, reason, page), now) == Some(now)
    ensures AncestorDateOf(NewRecord(now, author, ip, reason, page)) == Some(now)
  {
    var r := NewRecord(now, author, ip, reason, page);
    assert "date" in r && r["date"] == DateString(now);
    ParseDateString(now);
  }

  lemma NewRecordChild(now: Date, author: Option<string>, ip: Option<string>, reason: Option<string>,
                       page: Option<seq<byte>>)
    ensures !HasChild(NewRecord(now, author, ip, reason, page))
  {
    var r := NewRecord(now, author, ip, reason, page);
    assert r.Keys == {"date", "author", "ip", "reason", "page"};
    assert "child" !in r;
  }

  /** Every field of a freshly built record reads back as what was given, defaults applied. */
  lemma NewRecordFields(now: Date, author: Option<string>, ip: Option<string>, reason: Option<string>,
                        page: Option<seq<byte>>)
    ensures var r := NewRecord(now, author, ip, reason, page);
      && AuthorOf(r) == AuthorOr(author)
      && r["ip"] == OrEmpty(ip)
      && ReasonOf(r) == OrEmpty(reason)
      && PageOf(r) == (if page == None then [] else page.value)
      && DateOf(r, now) == Some(now)
      && AncestorDateOf(r) == Some(now)
      && !HasChild(r)
  {
    NewRecordAuthor(now, author, ip, reason, page);
    NewRecordReason(now, author, ip, reason, page);
    NewRecordPage(now, author, ip, reason, page);
    NewRecordDate(now, author, ip, reason, page);
    NewRecordChild(now, author, ip, reason, page);
  }

  /** The placeholder reads as a new, empty page by "anonymous" from 127.0.0.1, with no child. */
  lemma PlaceholderFields(now: Date)
    ensures var r := Placeholder(now);
      && AuthorOf(r) == "anonymous" && r["ip"] == "127.0.0.1"
      && ReasonOf(r) == "New Page" && PageOf(r) == []
      && DateOf(r, now) == Some(now) && !HasChild(r)
  {
    NewRecordFields(now, Some("anonymous"), Some("127.0.0.1"), Some("New Page"), Some([]));
  }

  // ---------------------------------------------------------------------
  // The store as a value, and the read and write steps

  /** The board's state: the current table, the backup table and the author map. */
  datatype Store = Store(dat: Table, bkp: Table, authors: map<string, string>)

  /** Which table a read goes to. */
  datatype Base = Current | Backup

  function TableOf(s: Store, base: Base): Table {
    match base
    case Current => s.dat
    case Backup => s.bkp
  }

  /** The key a read looks up: normalized, then cut to keyLength. */
  function ReadKey(key: Option<string>): (k: string)
    ensures |k| <= KeyLength && k <= Normalize(key)
    ensures |Normalize(key)| <= KeyLength ==> k == Normalize(key)
  {
    Truncate(Normalize(key), KeyLength)
  }

  /** An entry as a read produces it, with the state the read leaves behind. */
  datatype Fetched = Fetched(store: Store, key: string, record: Record)

  /**
   * read(key, base). A hit wraps the stored record and changes nothing. A
   * miss builds a placeholder through the entry constructor, which records
   * "127.0.0.1" as written by "anonymous"; the tables never change.
   */
  function Fetch(s: Store, base: Base, key: Option<string>, now: Date): (f: Fetched)
    ensures f.store.dat == s.dat && f.store.bkp == s.bkp
    ensures ReadKey(key) in TableOf(s, base) ==>
      f.store == s && f.key == ReadKey(key) && f.record == TableOf(s, base)[ReadKey(key)]
    ensures ReadKey(key) !in TableOf(s, base) ==>
      && f.key == ReadKey(Some(ReadKey(key)))
      && f.store.authors == s.authors["127.0.0.1" := "anonymous"]
      && f.record == Placeholder(now)
  {
    var k := ReadKey(key);
    var t := TableOf(s, base);
    if k in t then Fetched(s, k, t[k])
    else
      RememberLocalhost(s.authors);
      Fetched(s.(authors := Remember(s.authors, Some("127.0.0.1"), Some("anonymous"))),
              Truncate(Normalize(Some(k)), KeyLength), Placeholder(now))
  }

  /** The outcome of write: the new state, the page's record as stamped, and the returned key. */
  datatype Written = Written(store: Store, page: Record, key: Option<string>)

  /** The date of the version a write of pageKey supersedes (None: write throws). */
  function OldDate(s: Store, pageKey: string, now: Date): (r: Option<Date>)
    ensures var k := ReadKey(Some(pageKey));
      r == None <==> k in s.dat && "date" !in s.dat[k]
  {
    DateOf(Fetch(s, Current, Some(pageKey), now).record, now)
  }

  /** The key under which a version of pageKey dated d is archived. */
  function BackupKey(pageKey: string, d: Date): (k: string)
    ensures |k| == |pageKey| + |DateFormat| && k[..|pageKey|] == pageKey
  {
    pageKey + DateString(d)
  }

  /**
   * write(page): read the current version, stamp its date into the new
   * record's "bkp", stamp the new key into the old record's "child",
   * archive the old record, then overwrite the current one.
   */
  function WriteStep(s: Store, pageKey: string, page: Record, now: Date): (w: Written)
    ensures w.key == None <==> OldDate(s, pageKey, now) == None
    ensures w.key == None <==> ReadKey(Some(pageKey)) in s.dat && "date" !in s.dat[ReadKey(Some(pageKey))]
    ensures w.key == None ==> w.store == s && w.page == page
    ensures w.key != None ==>
      var f := Fetch(s, Current, Some(pageKey), now);
      var d := OldDate(s, pageKey, now).value;
      && w.key == Some(pageKey)
      && w.page == page["bkp" := DateString(d)]
      && w.store.dat == s.dat[pageKey := w.page]
      && w.store.bkp == s.bkp[BackupKey(pageKey, d) := f.record["child" := Encode(Bytes(pageKey))]]
      && w.store.authors == f.store.authors
  {
    var f := Fetch(s, Current, Some(pageKey), now);
    match DateOf(f.record, now)
    case None => Written(f.store, page, None)
    case Some(d) =>
      var stamped := page["bkp" := DateString(d)];
      var archived := f.record["child" := Encode(Bytes(pageKey))];
      Written(Store(f.store.dat[pageKey := stamped], f.store.bkp[BackupKey(pageKey, d) := archived], f.store.authors),
              stamped, Some(pageKey))
  }

  /** The successful write step spelled out from the record fetched under the page key. */
  lemma WriteStepSucceeds(s: Store, pageKey: string, page: Record, now: Date, d: Date)
    requires OldDate(s, pageKey, now) == Some(d)
    ensures var f := Fetch(s, Current, Some(pageKey), now);
      WriteStep(s, pageKey, page, now)
        == Written(Store(f.store.dat[pageKey := page["bkp" := DateString(d)]],
                         f.store.bkp[pageKey + DateString(d) := f.record["child" := Encode(Bytes(pageKey))]],
                         f.store.authors),
                   page["bkp" := DateString(d)], Some(pageKey))
  {
  }

  /** The key getAncestor() reads in the backup table: the entry key followed by the "date" field. */
  function AncestorKey(key: string, r: Record): (k: Option<string>)
    ensures k.Some? <==> AncestorDateOf(r).Some?
  {
    match AncestorDateOf(r)
    case None => None
    case Some(d) => Some(BackupKey(key, d))
  }

  // ---------------------------------------------------------------------
  // Properties of the write protocol

  lemma UpdateFrame<V>(m: map<string, V>, key: string, v: V, k: string)
    requires k != key
    ensures (k in m[key := v] <==> k in m) && (k in m ==> m[key := v][k] == m[k])
  {
  }

  lemma UpdateKeys<V>(m: map<string, V>, key: string, v: V)
    ensures m[key := v].Keys == m.Keys + {key}
  {
  }

  /** Stamping "bkp" or "child" leaves every other field, and so author, reason and page, as it was. */
  lemma StampKeepsFields(r: Record, field: string, v: string)
    requires field == "bkp" || field == "child"
    ensures forall name :: name in r && name != field ==> name in r[field := v] && r[field := v][name] == r[name]
    ensures AuthorOf(r[field := v]) == AuthorOf(r)
    ensures ReasonOf(r[field := v]) == ReasonOf(r)
    ensures PageOf(r[field := v]) == PageOf(r)
  {
    forall name | name in r && name != field
      ensures name in r[field := v] && r[field := v][name] == r[name]
    {
      UpdateFrame(r, field, v, name);
    }
    UpdateFrame(r, field, v, "author");
    UpdateFrame(r, field, v, "reason");
    UpdateFrame(r, field, v, "page");
  }

  /** The child stamp reads back as the key it was given. */
  lemma ChildOfStamp(r: Record, pageKey: string)
    ensures ChildNameOf(r["child" := Encode(Bytes(pageKey))]) == Some(pageKey)
  {
    DecodeEncode(Bytes(pageKey));
    TextOfBytes(pageKey);
  }

  /**
   * A successful write links the two versions: the new record's "bkp" parses
   * to the superseded date, the archived record names the new key as its
   * child and keeps every other field of the superseded record.
   */
  lemma WriteLinksVersions(s: Store, pageKey: string, page: Record, now: Date)
    requires WriteStep(s, pageKey, page, now).key != None
    ensures var w := WriteStep(s, pageKey, page, now);
      var prior := Fetch(s, Current, Some(pageKey), now).record;
      var d := OldDate(s, pageKey, now).value;
      && BackupKey(pageKey, d) in w.store.bkp
      && var archived := w.store.bkp[BackupKey(pageKey, d)];
      && ParseDate(w.page["bkp"]) == Some(d)
      && ChildNameOf(archived) == Some(pageKey)
      && (forall field :: field in prior && field != "child" ==> field in archived && archived[field] == prior[field])
      && AuthorOf(w.page) == AuthorOf(page) && ReasonOf(w.page) == ReasonOf(page) && PageOf(w.page) == PageOf(page)
  {
    var w := WriteStep(s, pageKey, page, now);
    var prior := Fetch(s, Current, Some(pageKey), now).record;
    var d := OldDate(s, pageKey, now).value;
    var stamp := DateString(d);
    var archived := prior["child" := Encode(Bytes(pageKey))];
    assert w.page == page["bkp" := stamp];
    assert w.store.bkp == s.bkp[BackupKey(pageKey, d) := archived];
    ParseDateString(d);
    ChildOfStamp(prior, pageKey);
    StampKeepsFields(prior, "child", Encode(Bytes(pageKey)));
    StampKeepsFields(page, "bkp", stamp);
  }

  /** A write touches one key of each table and nothing else. */
  lemma WriteKeepsOtherKeys(s: Store, pageKey: string, page: Record, now: Date, k: string)
    requires WriteStep(s, pageKey, page, now).key != None
    ensures var w := WriteStep(s, pageKey, page, now);
      && (k != pageKey ==> (k in w.store.dat <==> k in s.dat) && (k in s.dat ==> w.store.dat[k] == s.dat[k]))
      && (k != BackupKey(pageKey, OldDate(s, pageKey, now).value) ==>
            (k in w.store.bkp <==> k in s.bkp) && (k in s.bkp ==> w.store.bkp[k] == s.bkp[k]))
  {
    var w := WriteStep(s, pageKey, page, now);
    var f := Fetch(s, Current, Some(pageKey), now);
    var bk := BackupKey(pageKey, OldDate(s, pageKey, now).value);
    assert w.store.dat == s.dat[pageKey := w.page];
    assert w.store.bkp == s.bkp[bk := f.record["child" := Encode(Bytes(pageKey))]];
    if k != pageKey {
      UpdateFrame(s.dat, pageKey, w.page, k);
    }
    if k != bk {
      UpdateFrame(s.bkp, bk, f.record["child" := Encode(Bytes(pageKey))], k);
    }
  }

  /** size() grows only when a new page is written; sizeOfTwo() only when a new backup slot is filled. */
  lemma WriteSizes(s: Store, pageKey: string, page: Record, now: Date)
    requires WriteStep(s, pageKey, page, now).key != None
    ensures var w := WriteStep(s, pageKey, page, now);
      var bk := BackupKey(pageKey, OldDate(s, pageKey, now).value);
      && |w.store.dat| == |s.dat| + (if pageKey in s.dat then 0 else 1)
      && |w.store.bkp| == |s.bkp| + (if bk in s.bkp then 0 else 1)
  {
  }

  /** A write adds the page key to the current table and the archive slot to the backup table. */
  lemma WriteKeySets(s: Store, pageKey: string, page: Record, now: Date)
    requires WriteStep(s, pageKey, page, now).key != None
    ensures var w := WriteStep(s, pageKey, page, now);
      && w.store.dat.Keys == s.dat.Keys + {pageKey}
      && w.store.bkp.Keys == s.bkp.Keys + {BackupKey(pageKey, OldDate(s, pageKey, now).value)}
  {
    var w := WriteStep(s, pageKey, page, now);
    var f := Fetch(s, Current, Some(pageKey), now);
    var bk := BackupKey(pageKey, OldDate(s, pageKey, now).value);
    assert w.store.dat == s.dat[pageKey := w.page];
    assert w.store.bkp == s.bkp[bk := f.record["child" := Encode(Bytes(pageKey))]];
    UpdateKeys(s.dat, pageKey, w.page);
    UpdateKeys(s.bkp, bk, f.record["child" := Encode(Bytes(pageKey))]);
  }

  /** A write that misses in the current table supersedes a placeholder dated now. */
  lemma MissOldDate(s: Store, pageKey: string, now: Date)
    requires ReadKey(Some(pageKey)) !in s.dat
    ensures OldDate(s, pageKey, now) == Some(now)
  {
    assert Fetch(s, Current, Some(pageKey), now).record == Placeholder(now);
    NewRecordDate(now, Some("anonymous"), Some("127.0.0.1"), Some("New Page"), Some([]));
  }

  /**
   * The first write of a page archives the placeholder a read miss builds,
   * under the page key and the time of the write, and leaves
   * "127.0.0.1" -> "anonymous" in the author map.
   */
  lemma FirstWriteArchivesPlaceholder(s: Store, pageKey: string, page: Record, now: Date)
    requires ReadKey(Some(pageKey)) !in s.dat
    ensures OldDate(s, pageKey, now) == Some(now)
    ensures var w := WriteStep(s, pageKey, page, now);
      && w.key == Some(pageKey)
      && BackupKey(pageKey, now) in w.store.bkp
      && var archived := w.store.bkp[BackupKey(pageKey, now)];
      && AuthorOf(archived) == "anonymous" && "ip" in archived && archived["ip"] == "127.0.0.1"
      && ReasonOf(archived) == "New Page" && PageOf(archived) == []
      && ChildNameOf(archived) == Some(pageKey)
      && "127.0.0.1" in w.store.authors && w.store.authors["127.0.0.1"] == "anonymous"
  {
    var w := WriteStep(s, pageKey, page, now);
    var f := Fetch(s, Current, Some(pageKey), now);
    assert f.record == Placeholder(now) && f.store.authors == s.authors["127.0.0.1" := "anonymous"];
    PlaceholderFields(now);
    assert OldDate(s, pageKey, now) == Some(now);
    var archived := f.record["child" := Encode(Bytes(pageKey))];
    assert w.store.bkp == s.bkp[BackupKey(pageKey, now) := archived];
    assert w.store.authors == f.store.authors;
    ChildOfStamp(f.record, pageKey);
    StampKeepsFields(f.record, "child", Encode(Bytes(pageKey)));
    assert "ip" in f.record && "ip" != "child";
  }

  /**
   * A page written under the key newEntry gives its subject reads back, by
   * that subject, as the written record with the page's author, reason and
   * body, and the read has no side effect.
   */
  lemma ReadBySubjectAfterWrite(s: Store, subject: Option<string>, page: Record, now: Date, later: Date)
    requires WriteStep(s, ReadKey(subject), page, now).key != None
    ensures var w := WriteStep(s, ReadKey(subject), page, now);
      var f := Fetch(w.store, Current, subject, later);
      && f == Fetched(w.store, ReadKey(subject), w.page)
      && AuthorOf(f.record) == AuthorOf(page) && ReasonOf(f.record) == ReasonOf(page) && PageOf(f.record) == PageOf(page)
  {
    var k := ReadKey(subject);
    var w := WriteStep(s, k, page, now);
    var d := OldDate(s, k, now).value;
    WriteStepSucceeds(s, k, page, now, d);
    StampKeepsFields(page, "bkp", DateString(d));
  }

  // ---------------------------------------------------------------------
  // The board and its entries, as objects

  class Board {
    var datbase: Table
    var bkpbase: Table
    var authors: map<string, string>

    /** Opening the board: the two tables come from their files, the author map starts empty. */
    constructor (datbase: Table, bkpbase: Table)
      ensures this.datbase == datbase && this.bkpbase == bkpbase && authors == map[]
    {
      this.datbase := datbase;
      this.bkpbase := bkpbase;
      authors := map[];
    }

    function State(): Store
      reads this
    {
      Store(datbase, bkpbase, authors)
    }

    /** size(): the number of pages in the current table. */
    function Size(): (r: nat)
      reads this
      ensures r == 0 <==> datbase == map[]
    {
      |datbase|
    }

    /** sizeOfTwo(): the number of records in both tables. */
    function SizeOfTwo(): (r: nat)
      reads this
      ensures Size() <= r
      ensures r == Size() <==> bkpbase == map[]
    {
      |datbase| + |bkpbase|
    }

    /** guessAuthor(ip): the author last seen from ip, or null. */
    function GuessAuthor(ip: string): (r: Option<string>)
      reads this
      ensures r == None <==> ip !in authors
      ensures r != None ==> r.value == authors[ip]
    {
      Guess(authors, ip)
    }

    /** newEntry: construct an entry for the normalized subject. */
    method NewEntry(subject: Option<string>, author: Option<string>, ip: Option<string>, reason: Option<string>,
                    page: Option<seq<byte>>, now: Date) returns (e: Entry)
      modifies this
      ensures fresh(e) && e.board == this
      ensures e.key == Truncate(Normalize(subject), KeyLength)
      ensures e.record == NewRecord(now, author, ip, reason, page)
      ensures datbase == old(datbase) && bkpbase == old(bkpbase)
      ensures authors == Remember(old(authors), ip, author)
    {
      e := new Entry(this, Normalize(subject), author, ip, reason, page, now);
    }

    /** read(key): a read of the current table. */
    method Read(key: Option<string>, now: Date) returns (e: Entry)
      modifies this
      ensures fresh(e) && e.board == this
      ensures var f := Fetch(old(State()), Current, key, now);
        State() == f.store && e.key == f.key && e.record == f.record
    {
      e := ReadFrom(key, Current, now);
    }

    /** read(key, base): look the normalized, truncated key up; on a miss build a placeholder. */
    method ReadFrom(key: Option<string>, base: Base, now: Date) returns (e: Entry)
      modifies this
      ensures fresh(e) && e.board == this
      ensures var f := Fetch(old(State()), base, key, now);
        State() == f.store && e.key == f.key && e.record == f.record
    {
      var k := Normalize(key);
      if |k| > KeyLength {
        k := k[..KeyLength];
      }
      var t := if base == Current then datbase else bkpbase;
      if k in t {
        e := new Entry.Wrap(this, k, t[k]);
      } else {
        e := NewEntry(Some(k), Some("anonymous"), Some("127.0.0.1"), Some("New Page"), Some([]), now);
      }
    }

    /**
     * write(page): returns the page's key, or None where the board throws
     * because the current version has no "date" field. The page's record is
     * stamped in place.
     */
    method Write(page: Entry, now: Date) returns (key: Option<string>)
      modifies this, page
      ensures var w := WriteStep(old(State()), old(page.key), old(page.record), now);
        State() == w.store && page.record == w.page && key == w.key
      ensures page.key == old(page.key)
      ensures key != None ==> Size() == old(Size()) + (if old(page.key) in old(datbase) then 0 else 1)
      ensures key != None ==>
        SizeOfTwo() == old(SizeOfTwo()) + (if old(page.key) in old(datbase) then 0 else 1)
          + (if BackupKey(old(page.key), OldDate(old(State()), old(page.key), now).value) in old(bkpbase) then 0 else 1)
    {
      ghost var before, k0, r0 := State(), page.key, page.record;
      var oldEntry := Read(Some(page.key), now);
      var oldDate := DateOf(oldEntry.record, now);
      if oldDate == None {
        return None;
      }
      Archive(page, oldEntry, oldDate.value);
      key := Some(page.key);
      WriteStepSucceeds(before, k0, r0, now, oldDate.value);
      WriteSizes(before, k0, r0, now);
    }

    /**
     * The successful tail of write(page): stamp the page with the date of
     * the version it replaces, link that version to the page, archive it
     * and store the page.
     */
    method Archive(page: Entry, prior: Entry, d: Date)
      requires page != prior
      modifies this, page, prior
      ensures page.key == old(page.key) && page.record == old(page.record)["bkp" := DateString(d)]
      ensures prior.record == old(prior.record)["child" := Encode(Bytes(old(page.key)))]
      ensures datbase == old(datbase)[page.key := page.record]
      ensures bkpbase == old(bkpbase)[page.key + DateString(d) := prior.record]
      ensures authors == old(authors)
      ensures prior.key == old(prior.key)
    {
      page.SetAncestorDate(d);
      prior.SetChild(page.key);
      bkpbase := bkpbase[page.key + DateString(d) := prior.record];
      datbase := datbase[page.key := page.record];
    }
  }

  class Entry {
    const board: Board
    var key: string
    var record: Record

    /**
     * The public constructor: cut the subject to keyLength, fill in the
     * record with defaults and encoded fields, and remember the author for
     * the ip (last one wins, no other ip changes).
     */
    constructor (board: Board, subject: string, author: Option<string>, ip: Option<string>,
                 reason: Option<string>, page: Option<seq<byte>>, now: Date)
      modifies board
      ensures this.board == board
      ensures key == Truncate(subject, KeyLength)
      ensures record == NewRecord(now, author, ip, reason, page)
      ensures board.datbase == old(board.datbase) && board.bkpbase == old(board.bkpbase)
      ensures board.authors == Remember(old(board.authors), ip, author)
      ensures board.GuessAuthor(OrEmpty(ip)) == Some(AuthorOr(author))
      ensures forall other :: other != OrEmpty(ip) ==> board.GuessAuthor(other) == old(board.GuessAuthor(other))
    {
      this.board := board;
      key := if |subject| > KeyLength then subject[..KeyLength] else subject;
      var a := AuthorOr(author);
      var i := OrEmpty(ip);
      var rec: Record := map[];
      rec := rec["date" := DateString(now)];
      rec := rec["author" := Encode(Bytes(a))];
      rec := rec["ip" := i];
      rec := rec["reason" := Encode(Bytes(OrEmpty(reason)))];
      rec := rec["page" := PageField(page)];
      record := rec;
      new;
      board.authors := board.authors[i := a];
      RememberLastWins(old(board.authors), ip, author);
    }

    /** The private constructor a read hit uses: wrap a stored record. */
    constructor Wrap(board: Board, key: string, record: Record)
      ensures this.board == board && this.key == key && this.record == record
    {
      this.board := board;
      this.key := key;
      this.record := record;
    }

    /** setAncestorDate(date): "bkp" becomes the formatted date. */
    method SetAncestorDate(d: Date)
      modifies this
      ensures record == old(record)["bkp" := DateString(d)] && key == old(key)
    {
      record := record["bkp" := DateString(d)];
    }

    /** setChild(subject): "child" becomes the encoded subject. */
    method SetChild(subject: string)
      modifies this
      ensures record == old(record)["child" := Encode(Bytes(subject))] && key == old(key)
    {
      record := record["child" := Encode(Bytes(subject))];
    }

    /** getAncestor(): null without a parsable "date", else a read of the backup table. */
    method GetAncestor(now: Date) returns (a: Entry?)
      modifies board
      ensures AncestorKey(key, record) == None ==> a == null && unchanged(board)
      ensures AncestorKey(key, record) != None ==>
        var f := Fetch(old(board.State()), Backup, AncestorKey(key, record), now);
        a != null && fresh(a) && a.board == board && board.State() == f.store && a.key == f.key && a.record == f.record
    {
      var ancDate := AncestorDateOf(record);
      if ancDate == None {
        return null;
      }
      a := board.ReadFrom(Some(key + DateString(ancDate.value)), Backup, now);
    }

    /** getChild(): null without a decodable "child", else a read of the current table. */
    method GetChild(now: Date) returns (c: Entry?)
      modifies board
      ensures ChildNameOf(record) == None ==> c == null && unchanged(board)
      ensures ChildNameOf(record) != None ==>
        var f := Fetch(old(board.State()), Current, ChildNameOf(record), now);
        c != null && fresh(c) && c.board == board && board.State() == f.store && c.key == f.key && c.record == f.record
    {
      var childName := ChildNameOf(record);
      if childName == None {
        return null;
      }
      c := board.ReadFrom(childName, Current, now);
    }
  }
}
