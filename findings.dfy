/**
 * Three places where the board, as written, does not do what its own
 * design evidently intends. Each is exhibited against the as-written model
 * of module WikiBoard and paired with a corrected definition whose intended
 * property is proved.
 */
module Findings {
  import opened Wrappers
  import opened Keys
  import opened Charset
  import opened Codec
  import opened Dates
  import opened WikiBoard

  lemma AppendCancel(k: string, a: string, b: string)
    requires k + a == k + b
    ensures a == b
  {
    assert a == (k + a)[|k|..];
    assert b == (k + b)[|k|..];
  }

  lemma BackupKeysDiffer(pageKey: string, d1: Date, d2: Date)
    requires d1 != d2
    ensures BackupKey(pageKey, d1) != BackupKey(pageKey, d2)
  {
    if BackupKey(pageKey, d1) == BackupKey(pageKey, d2) {
      AppendCancel(pageKey, DateString(d1), DateString(d2));
      DateStringInjective(d1, d2);
    }
  }

  // ---------------------------------------------------------------------
  // 1. getAncestor() looks for the ancestor under the page's own "date"
  //    instead of the "bkp" date that write() stamps on it.

  /**
   * As written: after a write, the page's ancestor key is built from the
   * date the page was created, not from the date of the version the write
   * archived; when the two differ the lookup names a different slot.
   */
  lemma AncestorKeyMissesArchive(s: Store, pageKey: string, page: Record, now: Date, created: Date)
    requires WriteStep(s, pageKey, page, now).key != None
    requires AncestorDateOf(page) == Some(created)
    requires created != OldDate(s, pageKey, now).value
    ensures var w := WriteStep(s, pageKey, page, now);
      && AncestorKey(pageKey, w.page) == Some(BackupKey(pageKey, created))
      && AncestorKey(pageKey, w.page) != Some(BackupKey(pageKey, OldDate(s, pageKey, now).value))
  {
    var w := WriteStep(s, pageKey, page, now);
    var d := OldDate(s, pageKey, now).value;
    assert w.page == page["bkp" := DateString(d)];
    UpdateFrame(page, "bkp", DateString(d), "date");
    assert AncestorDateOf(w.page) == Some(created);
    BackupKeysDiffer(pageKey, created, d);
  }

  /**
   * The first write, at `now`, of a page created at another instant: the
   * backup table gains the archived version, but not under the key
   * getAncestor() asks for, so that lookup misses unless an unrelated
   * version happens to sit there.
   */
  lemma FirstWriteAncestorNotFound(s: Store, pageKey: string, page: Record, created: Date, now: Date)
    requires ReadKey(Some(pageKey)) !in s.dat && BackupKey(pageKey, created) !in s.bkp
    requires AncestorDateOf(page) == Some(created) && created != now
    ensures var w := WriteStep(s, pageKey, page, now);
      && w.key == Some(pageKey)
      && BackupKey(pageKey, now) in w.store.bkp
      && AncestorKey(pageKey, w.page) == Some(BackupKey(pageKey, created))
      && BackupKey(pageKey, created) !in w.store.bkp
  {
    MissOldDate(s, pageKey, now);
    WriteKeySets(s, pageKey, page, now);
    AncestorKeyMissesArchive(s, pageKey, page, now, created);
    BackupKeysDiffer(pageKey, created, now);
  }

  /** Corrected getAncestorDate(): the date in "bkp", the one write() stamps. */
  function IntendedAncestorDateOf(r: Record): (d: Option<Date>)
    ensures d.Some? ==> "bkp" in r && r["bkp"] == DateString(d.value)
    ensures d == None <==> "bkp" !in r || ParseDate(r["bkp"]) == None
  {
    if "bkp" !in r then None
    else
      var d := ParseDate(r["bkp"]);
      if d == None then None else DateStringOfParse(r["bkp"]); d
  }

  function IntendedAncestorKey(key: string, r: Record): (k: Option<string>)
    ensures k.Some? <==> IntendedAncestorDateOf(r).Some?
  {
    match IntendedAncestorDateOf(r)
    case None => None
    case Some(d) => Some(BackupKey(key, d))
  }

  /** With the "bkp" date, a written page's ancestor key is exactly the slot its previous version went to. */
  lemma IntendedAncestorKeyIsArchive(s: Store, pageKey: string, page: Record, now: Date)
    requires WriteStep(s, pageKey, page, now).key != None
    ensures var w := WriteStep(s, pageKey, page, now);
      var d := OldDate(s, pageKey, now).value;
      && IntendedAncestorKey(pageKey, w.page) == Some(BackupKey(pageKey, d))
      && BackupKey(pageKey, d) in w.store.bkp
  {
    var w := WriteStep(s, pageKey, page, now);
    var d := OldDate(s, pageKey, now).value;
    WriteLinksVersions(s, pageKey, page, now);
    assert "bkp" in w.page && ParseDate(w.page["bkp"]) == Some(d);
    assert IntendedAncestorDateOf(w.page) == Some(d);
  }

  // ---------------------------------------------------------------------
  // 2. read() cuts every key to keyLength, also the composite keys of the
  //    backup table, which is created for keyLength + 14 characters.

  /** Corrected read key for the backup table: cut to the width of that table. */
  function BackupReadKey(key: Option<string>): (k: string)
    ensures |k| <= BackupKeyLength && k <= Normalize(key)
    ensures |Normalize(key)| <= BackupKeyLength ==> k == Normalize(key)
  {
    Truncate(Normalize(key), BackupKeyLength)
  }

  /** A normalized page key followed by a date string is itself normalized. */
  lemma BackupKeyNormal(pageKey: string, d: Date)
    requires IsNormal(pageKey)
    ensures IsNormal(BackupKey(pageKey, d))
  {
    var ds := DateString(d);
    var bk := pageKey + ds;
    assert IsDigit(ds[0]) && IsDigit(ds[|ds| - 1]);
    assert bk[|bk| - 1] == ds[|ds| - 1];
    if |pageKey| == 0 {
      assert bk[0] == ds[0];
    } else {
      assert bk[0] == pageKey[0];
    }
    forall i | 0 <= i < |bk|
      ensures !IsUpper(bk[i])
    {
      if i < |pageKey| {
        assert bk[i] == pageKey[i];
      } else {
        assert bk[i] == ds[i - |pageKey|];
        assert IsDigit(ds[i - |pageKey|]);
      }
    }
  }

  /** With the corrected key, every backup key of a normalized page key reads back unchanged. */
  lemma BackupReadKeyExact(pageKey: string, d: Date)
    requires IsNormal(pageKey) && |pageKey| <= KeyLength
    ensures BackupReadKey(Some(BackupKey(pageKey, d))) == BackupKey(pageKey, d)
  {
    BackupKeyNormal(pageKey, d);
  }

  /**
   * As written: the lookup for a backup key of a normalized page key asks
   * for its first keyLength characters only, which for a page key longer
   * than 50 characters is not the key write() archived under.
   */
  lemma BackupReadTruncates(pageKey: string, d: Date)
    requires IsNormal(pageKey) && |pageKey| > KeyLength - |DateFormat|
    ensures ReadKey(Some(BackupKey(pageKey, d))) == BackupKey(pageKey, d)[..KeyLength]
    ensures ReadKey(Some(BackupKey(pageKey, d))) != BackupKey(pageKey, d)
  {
    BackupKeyNormal(pageKey, d);
    assert Normalize(Some(BackupKey(pageKey, d))) == BackupKey(pageKey, d);
  }

  /**
   * Both corrections together close the history chain: after a write of a
   * normalized key, the corrected ancestor lookup finds the archived
   * version, whose child is the page, and reading that child finds the page.
   */
  lemma IntendedHistoryChain(s: Store, pageKey: string, page: Record, now: Date)
    requires IsNormal(pageKey) && |pageKey| <= KeyLength
    requires WriteStep(s, pageKey, page, now).key != None
    ensures var w := WriteStep(s, pageKey, page, now);
      var ak := IntendedAncestorKey(pageKey, w.page);
      && ak.Some?
      && BackupReadKey(ak) in w.store.bkp
      && ChildNameOf(w.store.bkp[BackupReadKey(ak)]) == Some(pageKey)
      && ReadKey(Some(pageKey)) in w.store.dat
      && w.store.dat[ReadKey(Some(pageKey))] == w.page
  {
    var w := WriteStep(s, pageKey, page, now);
    var d := OldDate(s, pageKey, now).value;
    IntendedAncestorKeyIsArchive(s, pageKey, page, now);
    BackupReadKeyExact(pageKey, d);
    WriteLinksVersions(s, pageKey, page, now);
    assert ReadKey(Some(pageKey)) == pageKey;
    assert w.store.dat == s.dat[pageKey := w.page];
  }

  // ---------------------------------------------------------------------
  // 3. newEntry() cuts the normalized subject after trimming it, so a key
  //    can end in a blank; write() re-reads the page under the trimmed key,
  //    misses, and archives a placeholder instead of the previous version.

  function LongSubject(): string {
    seq(63, _ => 'a') + " b"
  }

  function BlankEndedKey(): string {
    seq(63, _ => 'a') + " "
  }

  /** As written: the key of subject LongSubject() ends in a blank, and reading that key asks for another one. */
  lemma TruncationLeavesBlank()
    ensures ReadKey(Some(LongSubject())) == BlankEndedKey()
    ensures ReadKey(Some(BlankEndedKey())) != BlankEndedKey()
  {
    var s := LongSubject();
    assert s[0] == 'a' && s[|s| - 1] == 'b';
    assert forall i | 0 <= i < |s| :: s[i] == 'a' || s[i] == ' ' || s[i] == 'b';
    assert IsNormal(s);
    assert s[..KeyLength] == BlankEndedKey();
    var k := BlankEndedKey();
    assert !IsTrimmed(k) by { assert k[|k| - 1] == ' '; }
    assert |Normalize(Some(k))| <= KeyLength;
  }

  /**
   * As written: a page stored under a key that its own re-read changes (the
   * blank-ended key above, say) loses its previous version on the next
   * write. The write re-reads under the other key, misses, archives a fresh
   * placeholder, and overwrites the stored version.
   */
  lemma ShiftedKeyLosesHistory(s: Store, pageKey: string, page: Record, now: Date)
    requires pageKey in s.dat && ReadKey(Some(pageKey)) !in s.dat
    ensures var w := WriteStep(s, pageKey, page, now);
      && w.key == Some(pageKey)
      && w.store.bkp.Keys == s.bkp.Keys + {BackupKey(pageKey, now)}
      && ReasonOf(w.store.bkp[BackupKey(pageKey, now)]) == "New Page"
      && PageOf(w.store.bkp[BackupKey(pageKey, now)]) == []
      && w.store.dat[pageKey] == w.page
  {
    FirstWriteArchivesPlaceholder(s, pageKey, page, now);
    WriteKeySets(s, pageKey, page, now);
    var w := WriteStep(s, pageKey, page, now);
    assert w.store.dat == s.dat[pageKey := w.page];
  }

  lemma PrefixLowered(s: string, p: string)
    requires IsLowered(s) && p <= s
    ensures IsLowered(p)
  {
    assert forall i | 0 <= i < |p| :: p[i] == s[i];
  }

  /** Corrected page key: the key a read asks for, trimmed again where the cut exposed a blank. */
  function CanonicalKey(subject: Option<string>): (k: string)
    ensures IsNormal(k) && |k| <= KeyLength
    ensures ReadKey(Some(k)) == k
    ensures IsTrimmed(ReadKey(subject)) ==> k == ReadKey(subject)
  {
    var cut := ReadKey(subject);
    PrefixLowered(Normalize(subject), cut);
    Normalize(Some(cut))
  }

  /**
   * A write under a key that reads back as itself archives the version
   * stored under that key, linked to the page, under the key and that
   * version's date, and changes nothing else.
   */
  lemma StableKeyKeepsHistory(s: Store, pageKey: string, page: Record, now: Date)
    requires ReadKey(Some(pageKey)) == pageKey
    requires pageKey in s.dat && "date" in s.dat[pageKey]
    ensures var w := WriteStep(s, pageKey, page, now);
      var d := DateOf(s.dat[pageKey], now).value;
      && w.key == Some(pageKey)
      && w.store.dat == s.dat[pageKey := w.page]
      && w.store.bkp == s.bkp[BackupKey(pageKey, d) := s.dat[pageKey]["child" := Encode(Bytes(pageKey))]]
      && w.store.authors == s.authors
  {
    var f := Fetch(s, Current, Some(pageKey), now);
    assert f.store == s && f.record == s.dat[pageKey];
    var d := DateOf(s.dat[pageKey], now).value;
    assert OldDate(s, pageKey, now) == Some(d);
    WriteStepSucceeds(s, pageKey, page, now, d);
  }
}
