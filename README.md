# wikiBoard: a verified model of YaCy's revisioned wiki store

This project models the wiki board of YaCy (`de.anomic.data.wikiBoard`). The board keeps
two tables of records:

- the current table (`datbase`) holds the latest version of every page, under the page's
  key;
- the backup table (`bkpbase`) holds every superseded version, under the page key followed
  by the date of that version.

The board also keeps an in-memory map from ip to the author last seen there.

A record is a map from field names to strings:

- `date`, `author`, `ip`, `reason` and `page` are written when an entry is built;
- `bkp` is stamped by `write` with the date of the version a page replaces;
- `child` is stamped on the replaced version with the key of the page that replaced it.

Writing a page re-reads its current version, stamps both records, archives the old one and
stores the new one. Reading a key that is not there builds a placeholder page instead of
failing.

The model has six modules:

- `Keys` (keys.dfy): `String.trim`, an ASCII `toLowerCase`, the board's `normalize`, the
  truncation to `keyLength` = 64, and `webalize`. `Webalize` is a method with the source's
  loop, proved equal to a specification function `Escape` of the normalized key.
- `Charset` (charset.dfy): `String.getBytes()` and `new String(byte[])`, with the round trip
  between them.
- `Codec` (codec.dfy): the field codec. Decoding is partial, and the codec round-trips in
  both directions.
- `Dates` (dates.dfy): dates as year/month/day/hour/minute/second values. They are written
  in the 14-digit `yyyyMMddHHmmss` form and parsed back. Formatting is injective and
  parsing accepts only what formatting writes.
- `WikiBoard` (wiki.dfy) has two layers:
  - A value layer. It holds the records, the accessors with their fallbacks, and the
    board's state as a `Store` value. `Fetch` is what `read(key, base)` does to that state
    and returns. `WriteStep` is what `write(page)` does. The lemmas about the write
    protocol are stated here.
  - The classes `Board` and `Entry`. They hold the tables and records as fields that their
    methods update in place, and each method is proved to leave exactly the state the
    value layer describes.
- `Findings` (findings.dfy): three defects of the code as written, each shown on the
  as-written model next to a corrected definition with its intended property proved.

`Wrappers` (wrappers.dfy) holds `Option`, which stands for Java's `null`.

Five behaviours of the code are easy to miss; the model follows the code in each:

- The ip-to-author entry is recorded by the entry constructor, not by `write`. So every
  read miss records `127.0.0.1 -> anonymous`, because a miss builds its placeholder through
  that constructor.
- `getAncestor` looks the ancestor up by the page's own `date` field, not by the `bkp`
  date that `write` stamps.
- `read` cuts every key to 64 characters, also in the backup table. A backup key is the
  page key followed by 14 date digits, so the backup keys of page keys longer than 50
  characters are cut.
- The first write of a new page archives the placeholder that the write's own read built.
- `child` holds the encoded key of the replacing page.

When the current version of a page has no `date` field, `date()` hands `null` to the date
parser. The resulting `NullPointerException` propagates out of `write` before anything has
changed. The model returns `None` from `Write` in that case, with nothing changed.

## Model

| member | source | states |
|---|---|---|
| Keys.Trim | source/de/anomic/data/wikiBoard.java:134 | the result has no blank (character at most U+0020) at either end and is no longer than the input; a string with no blank at either end is returned unchanged |
| Keys.TrimRun | source/de/anomic/data/wikiBoard.java:134 | trim's result is the run of the input that starts at its first non-blank character, and every character before or after that run is a blank |
| Keys.Normalize | source/de/anomic/data/wikiBoard.java:132-135 | a null key gives "null"; any other key gives a trimmed, lower-case key no longer than the input; a key that is already trimmed and lower-case is returned unchanged |
| Keys.NormalizeIdempotent | source/de/anomic/data/wikiBoard.java:132-135 | normalizing a normalized key changes nothing |
| Keys.Truncate | source/de/anomic/data/wikiBoard.java:164 | the cut key is a prefix of the key, of length min(length, 64) |
| Keys.IndexOf | source/de/anomic/data/wikiBoard.java:141 | -1 exactly when the character does not occur; otherwise the position of its first occurrence |
| Keys.Escape | source/de/anomic/data/wikiBoard.java:137-144 | the specification of webalize's rewriting: the result has no space and is two characters longer per space |
| Keys.EscapeSpaceStep | source/de/anomic/data/wikiBoard.java:141-142 | one loop iteration, which replaces the first space by "%20", keeps the escaped form and removes exactly one space, so the loop terminates |
| Keys.Webalize | source/de/anomic/data/wikiBoard.java:137-144 | the loop returns the escaped form of normalize(key), with no space left; a null key gives "null" |
| Charset.TextOfBytes | source/de/anomic/data/wikiBoard.java:167-171 | new String(s.getBytes()) == s for every string |
| Codec.DecodeEncode | source/de/anomic/data/wikiBoard.java:167-175 | every field the board encodes decodes back to the same bytes |
| Codec.EncodeDecode | source/de/anomic/data/wikiBoard.java:198-220 | for the hexadecimal coder that stands in for Base64: every field text that decodes is the encoding of what it decodes to, so that coder's decoding is the exact inverse of its encoding (a Base64 decoder that accepts non-canonical text does not have this property) |
| Dates.DateString | source/de/anomic/data/wikiBoard.java:62 | a formatted date is exactly as long as "yyyyMMddHHmmss" and all digits |
| Dates.ParseDateString | source/de/anomic/data/wikiBoard.java:128-130 | parsing a formatted date gives the date back |
| Dates.DateStringOfParse | source/de/anomic/data/wikiBoard.java:189-196 | a string that parses is the formatted form of the parsed date |
| Dates.DateStringInjective | source/de/anomic/data/wikiBoard.java:128-130 | two dates with the same formatted string are equal, so backup keys of different versions differ |
| WikiBoard.AuthorOr | source/de/anomic/data/wikiBoard.java:166 | a null or empty author becomes "anonymous"; any other author is kept |
| WikiBoard.NewRecord | source/de/anomic/data/wikiBoard.java:162-175 | a new record has exactly the fields date, author, ip, reason and page (no bkp, no child), dated by the creation time, with the ip stored plain |
| WikiBoard.Remember | source/de/anomic/data/wikiBoard.java:176 | the author map gains the entry's ip (null stored as "") with the defaulted author; every other ip keeps its author |
| WikiBoard.Guess | source/de/anomic/data/wikiBoard.java:146-150 | null exactly when the ip was never seen; otherwise the author recorded for it |
| WikiBoard.RememberLastWins | source/de/anomic/data/wikiBoard.java:176 | after an entry is built, guessAuthor(ip) is its author (last write wins), and the guess for every other ip is unchanged |
| WikiBoard.AuthorOf | source/de/anomic/data/wikiBoard.java:198-204 | a missing or undecodable author field reads as "anonymous" |
| WikiBoard.ReasonOf | source/de/anomic/data/wikiBoard.java:206-212 | a missing reason reads as "", an undecodable one as "unknown" |
| WikiBoard.PageOf | source/de/anomic/data/wikiBoard.java:214-220 | a missing or undecodable page reads as no bytes |
| WikiBoard.DateOf | source/de/anomic/data/wikiBoard.java:189-196 | None (the uncaught NullPointerException) exactly when the record has no date field; an unparsable date reads as now |
| WikiBoard.AncestorDateOf | source/de/anomic/data/wikiBoard.java:226-234 | null exactly when the "date" field is missing or unparsable; a result is always the parse of the record's "date" field (not "bkp") |
| WikiBoard.ChildNameOf | source/de/anomic/data/wikiBoard.java:258-264 | a name is returned only when "child" is present and decodes |
| WikiBoard.HasChild | source/de/anomic/data/wikiBoard.java:266-271 | hasChild() is true exactly when getChildName() is not null |
| WikiBoard.NewRecordAuthor | source/de/anomic/data/wikiBoard.java:166-167 | the author of a new record reads back as the given author, defaulted |
| WikiBoard.NewRecordReason | source/de/anomic/data/wikiBoard.java:170-171 | the reason of a new record reads back as the given reason, "" when null or empty |
| WikiBoard.NewRecordPage | source/de/anomic/data/wikiBoard.java:172-175 | the page of a new record reads back as the given bytes; a null page reads as no bytes |
| WikiBoard.NewRecordDate | source/de/anomic/data/wikiBoard.java:165 | a new record's date() and getAncestorDate() are both its creation time |
| WikiBoard.NewRecordChild | source/de/anomic/data/wikiBoard.java:161-175 | a new record has no child |
| WikiBoard.NewRecordFields | source/de/anomic/data/wikiBoard.java:161-175 | every field of a newly built record reads back as what was given, with defaults applied, and the ip is stored plain |
| WikiBoard.PlaceholderFields | source/de/anomic/data/wikiBoard.java:311 | the placeholder reads as an empty "New Page" by "anonymous" from 127.0.0.1, dated now, with no child |
| WikiBoard.Placeholder | source/de/anomic/data/wikiBoard.java:311 | the placeholder has exactly the five constructor fields, dated now, with ip 127.0.0.1 |
| WikiBoard.ReadKey | source/de/anomic/data/wikiBoard.java:308-309 | the looked-up key is a prefix of normalize(key), at most 64 long, and equal to it when it fits |
| WikiBoard.Fetch | source/de/anomic/data/wikiBoard.java:306-316 | read never changes a table; a hit returns the stored record and changes nothing; a miss returns the placeholder under the re-normalized key and records 127.0.0.1 -> anonymous |
| WikiBoard.BackupKey | source/de/anomic/data/wikiBoard.java:293 | the archive key is the page key followed by the 14-character date |
| WikiBoard.OldDate | source/de/anomic/data/wikiBoard.java:284-286 | the superseded version's date is missing (write throws) exactly when the re-read hits a stored record without a date field |
| WikiBoard.WriteStep | source/de/anomic/data/wikiBoard.java:280-300 | write fails exactly when the current record has no date field, and then changes nothing; otherwise it returns the key, archives the old record plus child = encode(key) under key + dateString(oldDate), and stores the page plus bkp = dateString(oldDate) |
| WikiBoard.AncestorKey | source/de/anomic/data/wikiBoard.java:248-252 | getAncestor() has a key to read exactly when getAncestorDate() is not null |
| WikiBoard.StampKeepsFields | source/de/anomic/data/wikiBoard.java:222-224 | stamping bkp or child leaves every other field, so author, reason and page read the same |
| WikiBoard.ChildOfStamp | source/de/anomic/data/wikiBoard.java:254-264 | the child that setChild stamps reads back through getChildName() as the key |
| WikiBoard.WriteLinksVersions | source/de/anomic/data/wikiBoard.java:284-295 | after a write, the page's bkp parses to the archived version's date; the archived version names the page as its child and keeps every other field of the old record |
| WikiBoard.WriteKeepsOtherKeys | source/de/anomic/data/wikiBoard.java:293-295 | a write changes no key of either table other than the page key and its archive slot |
| WikiBoard.WriteSizes | source/de/anomic/data/wikiBoard.java:293-295 | size() grows by one exactly when the page is new; the backup table grows exactly when its archive slot was empty |
| WikiBoard.WriteKeySets | source/de/anomic/data/wikiBoard.java:293-295 | a write adds the page key to the current table and the archive slot to the backup table |
| WikiBoard.MissOldDate | source/de/anomic/data/wikiBoard.java:284-286 | a write that misses supersedes a placeholder dated now |
| WikiBoard.FirstWriteArchivesPlaceholder | source/de/anomic/data/wikiBoard.java:284-293 | the first write of a new page succeeds and archives the placeholder ("anonymous", 127.0.0.1, "New Page", empty) under key + now, with the page as its child, and leaves 127.0.0.1 -> anonymous |
| WikiBoard.ReadBySubjectAfterWrite | source/de/anomic/data/wikiBoard.java:302-312 | after a write under the key newEntry gives a subject, read(subject) returns exactly the written record with no side effect |
| WikiBoard.Board.constructor | source/de/anomic/data/wikiBoard.java:68-70 | the board starts with the two given tables and an empty author map |
| WikiBoard.Board.Size | source/de/anomic/data/wikiBoard.java:99-101 | size() is 0 exactly when the current table is empty |
| WikiBoard.Board.SizeOfTwo | source/de/anomic/data/wikiBoard.java:95-97 | sizeOfTwo() is at least size(), and equal to it exactly when the backup table is empty |
| WikiBoard.Board.GuessAuthor | source/de/anomic/data/wikiBoard.java:146-150 | null exactly when no entry was built for the ip; otherwise the author last recorded for it |
| WikiBoard.Board.NewEntry | source/de/anomic/data/wikiBoard.java:152-154 | newEntry builds an entry for the normalized, truncated subject and records its author |
| WikiBoard.Board.Read | source/de/anomic/data/wikiBoard.java:302-304 | read(key) is a read of the current table |
| WikiBoard.Board.ReadFrom | source/de/anomic/data/wikiBoard.java:306-316 | the entry and the new state are the ones Fetch describes |
| WikiBoard.Board.Write | source/de/anomic/data/wikiBoard.java:280-300 | the returned key, the stamped page and the new state are the ones WriteStep describes; size() grows only for a new page, and sizeOfTwo() also grows when the archive slot was empty |
| WikiBoard.Board.Archive | source/de/anomic/data/wikiBoard.java:287-295 | the two stamps and the two table updates of a successful write, in the source's order; both entries keep their keys and the author map is unchanged |
| WikiBoard.Entry.constructor | source/de/anomic/data/wikiBoard.java:161-178 | the key is the subject cut to 64; the record is built field by field with defaults and encodings; the tables are untouched; the ip's author is overwritten and no other guess changes |
| WikiBoard.Entry.Wrap | source/de/anomic/data/wikiBoard.java:180-183 | the wrapped entry holds exactly the stored key and record |
| WikiBoard.Entry.SetAncestorDate | source/de/anomic/data/wikiBoard.java:222-224 | bkp becomes dateString(date) and nothing else of the record changes |
| WikiBoard.Entry.SetChild | source/de/anomic/data/wikiBoard.java:254-256 | child becomes the encoded subject and nothing else of the record changes |
| WikiBoard.Entry.GetAncestor | source/de/anomic/data/wikiBoard.java:248-252 | null, with nothing changed, exactly when getAncestorDate() is null; otherwise the backup-table read of key + dateString(date); the entry returned belongs to the same board |
| WikiBoard.Entry.GetChild | source/de/anomic/data/wikiBoard.java:273-277 | null, with nothing changed, exactly when getChildName() is null; otherwise the current-table read of that name; the entry returned belongs to the same board |
| Findings.BackupKeysDiffer | source/de/anomic/data/wikiBoard.java:293 | versions with different dates are archived under different keys |
| Findings.AncestorKeyMissesArchive | source/de/anomic/data/wikiBoard.java:226-234 | as written, after a write the page's ancestor key comes from its own creation date, not from the date of the version the write archived |
| Findings.FirstWriteAncestorNotFound | source/de/anomic/data/wikiBoard.java:248-252 | as written, a page's first write archives a version under key + now, while getAncestor() asks for key + creation date, which is not in the backup table |
| Findings.IntendedAncestorDateOf | source/de/anomic/data/wikiBoard.java:222-234 | corrected getAncestorDate(): the parse of the "bkp" field; null exactly when bkp is missing or unparsable |
| Findings.IntendedAncestorKey | source/de/anomic/data/wikiBoard.java:248-252 | corrected getAncestor() key: present exactly when the corrected ancestor date is |
| Findings.IntendedAncestorKeyIsArchive | source/de/anomic/data/wikiBoard.java:222-224 | with the bkp date, a written page's ancestor key is exactly the slot its previous version was archived in |
| Findings.BackupReadTruncates | source/de/anomic/data/wikiBoard.java:309 | as written, for a page key longer than 50 characters the backup lookup asks for the first 64 characters of key + date, not the archived key |
| Findings.BackupReadKey | source/de/anomic/data/wikiBoard.java:88 | corrected backup read key: normalized and cut to the backup table's width, 78 |
| Findings.BackupKeyNormal | source/de/anomic/data/wikiBoard.java:251 | a normalized page key followed by a date is itself normalized |
| Findings.BackupReadKeyExact | source/de/anomic/data/wikiBoard.java:88 | with the corrected read key, every archive key of a normalized page key reads back unchanged |
| Findings.IntendedHistoryChain | source/de/anomic/data/wikiBoard.java:280-300 | with both corrections, after a write the ancestor lookup finds the archived version, its child is the page, and reading the child returns the written page |
| Findings.TruncationLeavesBlank | source/de/anomic/data/wikiBoard.java:308-309 | as written, the subject 63 x "a" + " b" gets the key 63 x "a" + " ", and reading that key asks for a different key |
| Findings.ShiftedKeyLosesHistory | source/de/anomic/data/wikiBoard.java:284-295 | as written, rewriting a page whose key its own re-read changes archives a fresh placeholder and overwrites the stored version, which is not archived |
| Findings.CanonicalKey | source/de/anomic/data/wikiBoard.java:164 | corrected key: trimmed, lower-case, at most 64 long, read back as itself, and equal to the as-written key whenever that has no blank at either end |
| Findings.StableKeyKeepsHistory | source/de/anomic/data/wikiBoard.java:284-295 | a write under a key that reads back as itself archives exactly the stored version, linked to the page, under the key and that version's date |

## Left out

- The file handling of the board's constructor (directories, opening the record engine), `close` and `keys` are left out. `Board.constructor` takes the two tables as values.
- `dbCacheChunkSize` and `dbCacheFillStatus` are left out. They report statistics of the record engine, which is not modelled.
- The `IOException` paths of `write` and `read` are left out. The tables are maps, and their `get` and `set` never fail.
- `SimpleDateFormat` and the clock are left out:
  - A date is six numbers formatted as fixed-width digits.
  - Month lengths, lenient parsing and the time zone are not modelled.
  - Each clock read is the `now` parameter, so all clock reads within one call see the same instant.
- The Base64 coder is replaced by a hexadecimal coder. The board relies only on its round trip and on decoding being able to fail.
- The platform charset of `getBytes()` and `new String(byte[])` is replaced by a fixed three-bytes-per-character charset that encodes every character, as UTF-8 does. The model assumes such a default charset. Under a legacy default (ISO-8859-1, US-ASCII or windows-1252, common before Java 18), `getBytes()` turns characters it cannot encode into '?'. Then the read-backs of author, reason and child name that Charset.TextOfBytes, WikiBoard.NewRecordAuthor, WikiBoard.NewRecordReason, WikiBoard.ChildOfStamp, WikiBoard.WriteLinksVersions and Findings.IntendedHistoryChain state do not hold.
- Keys.Normalize: `toLowerCase` is modelled for the ASCII letters only, mapping 'A'-'Z' to 'a'-'z'. Other characters are left unchanged. Java's `toLowerCase()` uses the default locale, and the model assumes a default locale other than Turkish or Azerbaijani. In those locales 'I' lower-cases to dotless 'ı' (U+0131), so Java gives "ındex" for normalize("INDEX") where the model gives "index".
- Keys.Truncate: key lengths count characters, not Java's UTF-16 units. A key with a character outside the Basic Multilingual Plane is cut at a different place than Java cuts it, and Java's cut can split a surrogate pair.
- WikiBoard.ReadKey: the cut of `read` to 64 counts characters, not UTF-16 units, as for Keys.Truncate.
- WikiBoard.Entry.constructor: the cut of the subject to 64 counts characters, not UTF-16 units, as for Keys.Truncate.
- Records are values. The record engine, whose code is not part of this model, is assumed to copy a record on `get` and on `set`, so an entry's record never shares state with a stored one. `entry(key, record)` (:180-183) and the stamps of `write` (:287-295) act on the very map the engine returned. If the engine handed back the map an earlier `set` stored, `write(read(k))` would stamp "bkp" and "child" on one map that both tables then hold, and the current page would name itself as its child. The model does not capture that aliasing.
- Thread safety of the shared date formatter and the author map is left out. The model is sequential.
- WikiBoard.Board.Size: table sizes are unbounded naturals. Java's 32-bit `int` overflow of `size()` and `sizeOfTwo()` is not modelled.
- WikiBoard.Board.GuessAuthor: a `null` ip cannot be asked for. Null ips are stored as "" by the entry constructor, and that case is modelled.
- `entry.subject()` is the `key` field itself and has no member of its own.
- WikiBoard.Board.Write: when the current record has no date field, Java throws from `date()`. The model returns `None` instead, with the same state (nothing has changed at that point).

## Findings

| source | as written | input that shows it | evidently intended | confidence | as-written member | corrected member |
|---|---|---|---|---|---|---|
| source/de/anomic/data/wikiBoard.java:226-234 | getAncestorDate() parses the page's own "date" field, but write() stamps the superseded version's date into "bkp" and archives it under key + that date | a page built at time t1 and first written at time t2 != t1: the archive slot is key + dateString(t2), while getAncestor() reads key + dateString(t1) | getAncestorDate() reads "bkp", the field setAncestorDate() writes | medium; not executed | Findings.FirstWriteAncestorNotFound | Findings.IntendedAncestorKeyIsArchive |
| source/de/anomic/data/wikiBoard.java:309 | read(key, base) cuts every key to keyLength = 64, also the backup-table keys, which are key + 14 date digits and for which the table is created 78 wide (:88) | any normalized page key of 51 to 64 characters: getAncestor() looks up only the first 64 characters of its 65-78 character archive key | keys read from the backup table are cut to keyLength + dateFormat.length() | medium; not executed | Findings.BackupReadTruncates | Findings.BackupReadKeyExact |
| source/de/anomic/data/wikiBoard.java:152-164 | newEntry() trims the subject and then cuts it to 64, so the cut can expose a trailing blank; write() re-reads the page under the normalized key, which drops that blank, misses, and archives a placeholder instead of the stored version | the subject 63 x "a" + " b" gives the key 63 x "a" + " " | the key is trimmed again after the cut, so that a key reads back as itself | low: assumes the record engine stores keys verbatim; not executed | Findings.ShiftedKeyLosesHistory | Findings.StableKeyKeepsHistory |
