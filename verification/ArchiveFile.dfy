/** Static libraries: what the archiver writes, what the two programs that read it
    find, and the round trip. */
module ArchiveFile {
  import opened Bytes
  import opened Words
  import opened ObjectFile

  datatype Member = Member(name: string, data: seq<Byte>)

  /** A symbol and the number of the member that defines it. */
  datatype SymRef = SymRef(name: string, member: nat)

  const HEADER: nat := 60
  const MAGIC: seq<Byte> := [33, 60, 97, 114, 99, 104, 62, 10]
  /** The two programs that read archives. */
  datatype Reader = ByArchiver | ByLinker

  function MaxMembers(who: Reader): nat { if who.ByArchiver? then 64 else 256 }

  const MAX_SYMS: nat := 4096

  // ----- Decimal fields -----

  predicate IsDigit(b: Byte) { 48 <= b <= 57 }

  /** val in n decimal digits with leading zeros. */
  function DecBytes(val: nat, n: nat): (b: seq<Byte>)
    ensures |b| == n && forall i :: 0 <= i < n ==> IsDigit(b[i])
    decreases n
  {
    if n == 0 then [] else DecBytes(val / 10, n - 1) + [48 + val % 10]
  }

  /** Reads at most n digits behind acc. */
  function ParseDec(file: seq<Byte>, p: nat, n: nat, acc: nat): nat
    requires p + n <= |file|
    decreases n
  {
    if n == 0 || !IsDigit(file[p]) then acc else ParseDec(file, p + 1, n - 1, acc * 10 + file[p] - 48)
  }

  function Pow10(n: nat): (p: nat)
    ensures p >= 1
  {
    if n == 0 then 1 else 10 * Pow10(n - 1)
  }

  /** A run of digits is read up to its last one. */
  lemma {:induction false} ParseLast(file: seq<Byte>, p: nat, n: nat, acc: nat)
    requires p + n <= |file| && n > 0 && forall i :: p <= i < p + n ==> IsDigit(file[i])
    ensures ParseDec(file, p, n, acc) == 10 * ParseDec(file, p, n - 1, acc) + file[p + n - 1] - 48
    decreases n
  {
    if n > 1 { ParseLast(file, p + 1, n - 1, acc * 10 + file[p] - 48); }
  }

  lemma {:induction false} DecRead(file: seq<Byte>, p: nat, val: nat, n: nat)
    requires Sits(file, p, DecBytes(val, n)) && val < Pow10(n)
    ensures ParseDec(file, p, n, 0) == val
    decreases n
  {
    if n > 0 {
      var front := DecBytes(val / 10, n - 1);
      SitsParts(file, p, front, [48 + val % 10]);
      DecRead(file, p, val / 10, n - 1);
      forall i | p <= i < p + n ensures IsDigit(file[i]) { SitsByte(file, p, DecBytes(val, n), i - p); }
      SitsByte(file, p + n - 1, [48 + val % 10], 0);
      ParseLast(file, p, n, 0);
    }
  }

  // ----- Layout -----

  /** A member name: 1 to 15 characters without space and slash. */
  predicate GoodName(s: string)
  {
    1 <= |s| <= 15 && IsName(s) && forall i :: 0 <= i < |s| ==> s[i] != ' ' && s[i] != '/'
  }

  predicate GoodMember(m: Member) { GoodName(m.name) && |m.data| < 0x8000_0000 }

  function Spaces(n: nat): (b: seq<Byte>)
    ensures |b| == n && forall i :: 0 <= i < n ==> b[i] == 32
  {
    seq(n, _ => 32)
  }

  /** A header: name, padded with spaces, empty fields, size and mark. */
  function HeaderBytes(name: seq<Byte>, size: nat): (b: seq<Byte>)
    requires |name| <= 16
    ensures |b| == HEADER
  {
    name + Spaces(16 - |name|) + Spaces(32) + DecBytes(size, 10) + [96, 10]
  }

  /** Parts start at even offsets. */
  function Pad(n: nat): (b: seq<Byte>)
    ensures (n + |b|) % 2 == 0 && |b| <= 1
  {
    if n % 2 == 1 then [10] else []
  }

  function Part(name: seq<Byte>, data: seq<Byte>): (b: seq<Byte>)
    requires |name| <= 16
    ensures |b| == HEADER + |data| + |Pad(|data|)| && |b| % 2 == 0
  {
    HeaderBytes(name, |data|) + data + Pad(|data|)
  }

  function MemberBytes(m: Member): (b: seq<Byte>)
    requires GoodName(m.name)
    ensures |b| == HEADER + |m.data| + |Pad(|m.data|)| && |b| % 2 == 0
  {
    Part(Chars(m.name) + [47], m.data)
  }

  predicate GoodMembers(ms: seq<Member>) { forall i :: 0 <= i < |ms| ==> GoodMember(ms[i]) }

  function AllMembers(ms: seq<Member>): (b: seq<Byte>)
    requires GoodMembers(ms)
  {
    if ms == [] then [] else MemberBytes(ms[0]) + AllMembers(ms[1..])
  }

  /** The offset of the header of member i when the first one is at start. */
  function HeaderAt(ms: seq<Member>, start: nat, i: nat): nat
    requires i <= |ms|
    decreases i
  {
    if i == 0 then start
    else HeaderAt(ms, start, i - 1) + HEADER + |ms[i - 1].data| + |Pad(|ms[i - 1].data|)|
  }

  function BE4(v: int): (b: seq<Byte>)
    ensures |b| == 4
  {
    [(v / 0x100_0000) % 256, (v / 0x1_0000) % 256, (v / 0x100) % 256, v % 256]
  }

  function R32BE(file: seq<Byte>, p: nat): (v: int)
    requires p + 4 <= |file|
    ensures 0 <= v < 0x1_0000_0000
  {
    Join4(file[p + 3], file[p + 2], file[p + 1], file[p])
  }

  lemma {:induction false} BE4Read(file: seq<Byte>, p: nat, v: int)
    requires Sits(file, p, BE4(v)) && 0 <= v < 0x1_0000_0000
    ensures R32BE(file, p) == v
  {
    hide Join4, U32;
    SitsByte(file, p, BE4(v), 0); SitsByte(file, p, BE4(v), 1); SitsByte(file, p, BE4(v), 2); SitsByte(file, p, BE4(v), 3);
    LE4Sum(v);
    IsMod32(v);
    DivModUnique(v, 0x1_0000_0000, 0, v);
  }

  predicate GoodSyms(syms: seq<SymRef>, n: nat)
  {
    forall i :: 0 <= i < |syms| ==> IsName(syms[i].name) && syms[i].name != "" && syms[i].member < n
  }

  /** The header offsets of the symbols' members. */
  function Offsets(syms: seq<SymRef>, ms: seq<Member>, start: nat): seq<Byte>
    requires forall i :: 0 <= i < |syms| ==> syms[i].member < |ms|
    decreases |syms|
  {
    if syms == [] then [] else BE4(HeaderAt(ms, start, syms[0].member)) + Offsets(syms[1..], ms, start)
  }

  function NameBytes(syms: seq<SymRef>): seq<Byte>
    requires forall i :: 0 <= i < |syms| ==> IsName(syms[i].name)
    decreases |syms|
  {
    if syms == [] then [] else Chars(syms[0].name) + [0] + NameBytes(syms[1..])
  }

  function IndexSize(syms: seq<SymRef>): nat
    requires forall i :: 0 <= i < |syms| ==> IsName(syms[i].name)
  {
    4 + 4 * |syms| + |NameBytes(syms)|
  }

  /** Where the first member's header goes. */
  function FirstAt(syms: seq<SymRef>): nat
    requires forall i :: 0 <= i < |syms| ==> IsName(syms[i].name)
  {
    if syms == [] then 8 else 8 + HEADER + IndexSize(syms) + |Pad(IndexSize(syms))|
  }

  function IndexBytes(syms: seq<SymRef>, ms: seq<Member>): seq<Byte>
    requires GoodSyms(syms, |ms|)
  {
    BE4(|syms|) + Offsets(syms, ms, FirstAt(syms)) + NameBytes(syms)
  }

  /** The archive: magic, the index if there are symbols, the members. */
  function ArchiveOf(ms: seq<Member>, syms: seq<SymRef>): seq<Byte>
    requires GoodMembers(ms) && GoodSyms(syms, |ms|)
  {
    MAGIC + (if syms == [] then [] else Part([47], IndexBytes(syms, ms))) + AllMembers(ms)
  }

  // ----- Reading -----

  /** A member that was read: its name, its bytes and where its header is. */
  datatype Entry = Entry(name: string, data: seq<Byte>, at: nat)

  /** index is the offset of the symbol index, or -1; longs is the table of long names. */
  datatype Scan = Scan(entries: seq<Entry>, index: int, longs: seq<Byte>) | BadArchive

  /** The length of the name field up to a space. */
  function NameLength(file: seq<Byte>, p: nat, k: nat): (n: nat)
    requires p + 16 <= |file| && k <= 16
    ensures k <= n <= 16
    decreases 16 - k
  {
    if k == 16 || file[p + k] == 0 || file[p + k] == 32 then k else NameLength(file, p, k + 1)
  }

  function Letters(b: seq<Byte>): string { seq(|b|, i requires 0 <= i < |b| => b[i] as char) }

  /** Up to the next newline. */
  function LineOf(b: seq<Byte>, p: nat): seq<Byte>
    decreases |b| - p
  {
    if p >= |b| || b[p] == 10 then [] else [b[p]] + LineOf(b, p + 1)
  }

  /** Up to the first slash. */
  function BeforeSlash(b: seq<Byte>): seq<Byte>
  {
    if b == [] || b[0] == 47 then [] else [b[0]] + BeforeSlash(b[1..])
  }

  /** A member's name: through the table of long names; else the field up to its slash
      (the archiver) or without its last slash (the linker). */
  function EntryName(file: seq<Byte>, p: nat, nl: nat, longs: seq<Byte>, who: Reader): string
    requires p + 16 <= |file| && nl <= 16
  {
    if nl >= 2 && file[p] == 47 && IsDigit(file[p + 1]) && longs != [] && ParseDec(file, p + 1, 15, 0) < |longs| then
      Letters(LineOf(longs, ParseDec(file, p + 1, 15, 0)))
    else if who.ByArchiver? then Letters(BeforeSlash(file[p..p + nl]))
    else if nl > 0 && file[p + nl - 1] == 47 then Letters(file[p..p + nl - 1])
    else Letters(file[p..p + nl])
  }

  /** All parts from pos on. */
  function ScanFrom(file: seq<Byte>, pos: nat, sofar: Scan, who: Reader): Scan
    decreases |file| - pos
  {
    if sofar.BadArchive? || pos + HEADER > |file| then sofar
    else
      var nl, size := NameLength(file, pos, 0), ParseDec(file, pos + 48, 10, 0);
      var dp := pos + HEADER;
      if dp + size > |file| || file[pos + 58] != 96 || file[pos + 59] != 10 then BadArchive
      else
        var next := if (dp + size) % 2 == 1 then dp + size + 1 else dp + size;
        if nl == 1 && file[pos] == 47 then ScanFrom(file, next, sofar.(index := dp), who)
        else if nl >= 2 && file[pos] == 47 && file[pos + 1] == 47 then ScanFrom(file, next, sofar.(longs := file[dp..dp + size]), who)
        else if |sofar.entries| >= MaxMembers(who) then BadArchive
        else
          var e := Entry(EntryName(file, pos, nl, sofar.longs, who), file[dp..dp + size], pos);
          ScanFrom(file, next, sofar.(entries := sofar.entries + [e]), who)
  }

  /** The member whose header is at off. */
  function FindMember(es: seq<Entry>, off: int, i: nat): int
    decreases |es| - i
  {
    if i >= |es| then -1 else if es[i].at == off then i else FindMember(es, off, i + 1)
  }

  /** Entries i.. of the index at ix: names that no member answers to are left out. */
  function IndexFrom(file: seq<Byte>, ix: nat, es: seq<Entry>, n: nat, i: nat, nameAt: nat, sofar: seq<SymRef>): seq<SymRef>
    requires ix + 4 + 4 * n <= |file|
    decreases n - i
  {
    if i >= n || |sofar| >= MAX_SYMS then sofar
    else
      var name, m := CString(file, ix + nameAt), FindMember(es, R32BE(file, ix + 4 + 4 * i), 0);
      var now := if m >= 0 && name != "" then sofar + [SymRef(name, m)] else sofar;
      var next := nameAt + |name| + 1;
      if next >= |file| - ix then now else IndexFrom(file, ix, es, n, i + 1, next, now)
  }

  datatype Archive = Archive(entries: seq<Entry>, index: seq<SymRef>) | NoArchive

  function ReadIndex(file: seq<Byte>, ix: int, es: seq<Entry>): seq<SymRef>
  {
    if 0 <= ix && ix + 4 <= |file| && 0 < S32(R32BE(file, ix)) < (|file| - ix) / 4
    then IndexFrom(file, ix, es, S32(R32BE(file, ix)), 0, 4 + 4 * S32(R32BE(file, ix)), []) else []
  }

  /** What the linker reads from an archive. */
  function ReadArchive(file: seq<Byte>): Archive
  {
    if |file| < 8 || file[..8] != MAGIC then NoArchive
    else match ScanFrom(file, 8, Scan([], -1, []), ByLinker)
      case BadArchive => NoArchive
      case Scan(es, ix, _) => Archive(es, ReadIndex(file, ix, es))
  }

  /** What the archiver itself reads: the members only. */
  function ReadMembers(file: seq<Byte>): Archive
  {
    if |file| < 8 || file[..8] != MAGIC then NoArchive
    else match ScanFrom(file, 8, Scan([], -1, []), ByArchiver)
      case BadArchive => NoArchive
      case Scan(es, _, _) => Archive(es, [])
  }

  // ----- Round trip -----

  /** What reading should find. */
  function MemberEntries(ms: seq<Member>, start: nat): (es: seq<Entry>)
    ensures |es| == |ms|
  {
    seq(|ms|, i requires 0 <= i < |ms| => Entry(ms[i].name, ms[i].data, HeaderAt(ms, start, i)))
  }

  lemma {:induction false} HeaderFields(file: seq<Byte>, p: nat, name: seq<Byte>, size: nat)
    requires |name| <= 16 && Sits(file, p, HeaderBytes(name, size)) && size < 0x8000_0000
    ensures Sits(file, p, name) && (|name| < 16 ==> file[p + |name|] == 32)
    ensures ParseDec(file, p + 48, 10, 0) == size && file[p + 58] == 96 && file[p + 59] == 10
  {
    hide DecBytes;
    var s := name + Spaces(16 - |name|);
    SitsParts(file, p, s + Spaces(32) + DecBytes(size, 10), [96, 10]);
    SitsParts(file, p, s + Spaces(32), DecBytes(size, 10));
    SitsParts(file, p, s, Spaces(32));
    SitsParts(file, p, name, Spaces(16 - |name|));
    if |name| < 16 { SitsByte(file, p + |name|, Spaces(16 - |name|), 0); }
    SitsByte(file, p + 58, [96, 10], 0); SitsByte(file, p + 58, [96, 10], 1);
    TenDigits(size);
    DecRead(file, p + 48, size, 10);
  }

  lemma {:induction false} TenDigits(v: nat)
    requires v < 0x8000_0000
    ensures v < Pow10(10)
  {
    assert Pow10(5) == 100000;
    assert Pow10(10) == 100000 * Pow10(5);
  }

  /** A name field without spaces and NULs has its own length. */
  lemma {:induction false} NameLengthIs(file: seq<Byte>, p: nat, name: seq<Byte>, k: nat)
    requires k <= |name| <= 16 && p + 16 <= |file| && Sits(file, p, name) && (|name| < 16 ==> file[p + |name|] == 32)
    requires forall i :: 0 <= i < |name| ==> name[i] != 0 && name[i] != 32
    ensures NameLength(file, p, k) == |name|
    decreases |name| - k
  {
    if k < |name| {
      SitsByte(file, p, name, k);
      NameLengthIs(file, p, name, k + 1);
    }
  }

  lemma {:induction false} NameOfField(file: seq<Byte>, p: nat, name: string, longs: seq<Byte>, who: Reader)
    requires GoodName(name) && p + 16 <= |file| && Sits(file, p, Chars(name) + [47])
    requires |name| < 15 ==> file[p + |name| + 1] == 32
    ensures NameLength(file, p, 0) == |name| + 1 && file[p] != 47
    ensures EntryName(file, p, |name| + 1, longs, who) == name
  {
    hide EntryName, NameLength;
    var field := Chars(name) + [47];
    NameLengthIs(file, p, field, 0);
    SitsByte(file, p, field, 0);
    SitsParts(file, p, Chars(name), [47]);
    SitsByte(file, p + |name|, [47], 0);
    ShortName(file, p, name, longs, who);
  }

  lemma {:induction false} ShortName(file: seq<Byte>, p: nat, name: string, longs: seq<Byte>, who: Reader)
    requires GoodName(name) && p + 16 <= |file| && Sits(file, p, Chars(name)) && file[p + |name|] == 47 && file[p] != 47
    ensures EntryName(file, p, |name| + 1, longs, who) == name
  {
    assert Letters(Chars(name)) == name;
    assert file[p..p + |name| + 1] == Chars(name) + [47];
    SlashEnds(Chars(name), []);
    assert Chars(name) + [47] + [] == Chars(name) + [47];
  }

  lemma {:induction false} SlashEnds(b: seq<Byte>, rest: seq<Byte>)
    requires forall i :: 0 <= i < |b| ==> b[i] != 47
    ensures BeforeSlash(b + [47] + rest) == b
    decreases |b|
  {
    if b != [] {
      assert (b + [47] + rest)[1..] == b[1..] + [47] + rest;
      SlashEnds(b[1..], rest);
    }
  }

  /** Where a part starts, the scan takes the header and the data and goes on behind it. */
  lemma {:induction false} PartRead(file: seq<Byte>, p: nat, name: seq<Byte>, data: seq<Byte>)
    requires |name| <= 16 && Sits(file, p, Part(name, data)) && |data| < 0x8000_0000 && p % 2 == 0
    ensures p + HEADER + |data| <= |file| && Sits(file, p, name) && (|name| < 16 ==> file[p + |name|] == 32)
    ensures ParseDec(file, p + 48, 10, 0) == |data| && file[p + 58] == 96 && file[p + 59] == 10
    ensures Sits(file, p + HEADER, data)
    ensures var e := p + HEADER + |data|; (if e % 2 == 1 then e + 1 else e) == p + |Part(name, data)|
  {
    hide HeaderBytes;
    SitsParts(file, p, HeaderBytes(name, |data|) + data, Pad(|data|));
    SitsParts(file, p, HeaderBytes(name, |data|), data);
    HeaderFields(file, p, name, |data|);
  }

  lemma {:induction false} EntriesNext(ms: seq<Member>, start: nat)
    requires ms != [] && GoodMembers(ms)
    ensures var next := start + |MemberBytes(ms[0])|;
      MemberEntries(ms, start) == [Entry(ms[0].name, ms[0].data, start)] + MemberEntries(ms[1..], next)
  {
    hide MemberBytes;
    var next := start + |MemberBytes(ms[0])|;
    forall i | 0 <= i < |ms| - 1 ensures HeaderAt(ms, start, i + 1) == HeaderAt(ms[1..], next, i) {
      HeaderShift(ms, start, i);
    }
  }

  lemma {:induction false} HeaderShift(ms: seq<Member>, start: nat, i: nat)
    requires ms != [] && GoodMembers(ms) && i < |ms|
    ensures HeaderAt(ms, start, i + 1) == HeaderAt(ms[1..], start + |MemberBytes(ms[0])|, i)
    decreases i
  {
    hide MemberBytes;
    if i > 0 { HeaderShift(ms, start, i - 1); }
  }

  /** Scanning the members finds all of them, in order, with their bytes. */
  lemma {:induction false} MembersRead(file: seq<Byte>, p: nat, ms: seq<Member>, sofar: Scan, who: Reader)
    requires GoodMembers(ms) && p % 2 == 0 && p <= |file| && file[p..] == AllMembers(ms)
    requires sofar.Scan? && |sofar.entries| + |ms| <= MaxMembers(who)
    ensures ScanFrom(file, p, sofar, who) == sofar.(entries := sofar.entries + MemberEntries(ms, p))
    decreases |ms|
  {
    hide MemberBytes, ScanFrom, MemberEntries, AllMembers;
    if ms == [] {
      NoMembers(file, p, sofar, who);
    } else {
      var m := ms[0];
      var next := p + |MemberBytes(m)|;
      OneMemberFirst(ms);
      FrontOfTail(file, p, MemberBytes(m), AllMembers(ms[1..]));
      OneMemberRead(file, p, m, sofar, who);
      EntriesNext(ms, p);
      var e := Entry(m.name, m.data, p);
      assert sofar.entries + ([e] + MemberEntries(ms[1..], next)) == sofar.entries + [e] + MemberEntries(ms[1..], next);
      MembersRead(file, next, ms[1..], sofar.(entries := sofar.entries + [e]), who);
    }
  }

  lemma {:induction false} OneMemberFirst(ms: seq<Member>)
    requires ms != [] && GoodMembers(ms)
    ensures GoodMember(ms[0]) && GoodMembers(ms[1..]) && AllMembers(ms) == MemberBytes(ms[0]) + AllMembers(ms[1..])
  {
    hide MemberBytes;
  }

  lemma {:induction false} NoMembers(file: seq<Byte>, p: nat, sofar: Scan, who: Reader)
    requires p <= |file| && file[p..] == AllMembers([]) && sofar.Scan?
    ensures ScanFrom(file, p, sofar, who) == sofar.(entries := sofar.entries + MemberEntries([], p))
  {
    assert sofar.entries + MemberEntries([], p) == sofar.entries;
  }

  lemma {:induction false} FrontOfTail(file: seq<Byte>, p: nat, a: seq<Byte>, rest: seq<Byte>)
    requires p <= |file| && file[p..] == a + rest
    ensures Sits(file, p, a) && file[p + |a|..] == rest
  {
    var t := file[p..];
    assert file[p..p + |a|] == t[..|a|];
    assert file[p + |a|..] == t[|a|..];
  }

  lemma {:induction false} OneMemberRead(file: seq<Byte>, p: nat, m: Member, sofar: Scan, who: Reader)
    requires GoodMember(m) && p % 2 == 0 && Sits(file, p, MemberBytes(m)) && sofar.Scan? && |sofar.entries| < MaxMembers(who)
    ensures ScanFrom(file, p, sofar, who)
      == ScanFrom(file, p + |MemberBytes(m)|, sofar.(entries := sofar.entries + [Entry(m.name, m.data, p)]), who)
  {
    hide NameLength, EntryName, ParseDec, Part;
    PartRead(file, p, Chars(m.name) + [47], m.data);
    NameOfField(file, p, m.name, sofar.longs, who);
    assert file[p + HEADER..p + HEADER + |m.data|] == m.data;
  }

  // ----- The index -----

  lemma {:induction false} HeadersGrow(ms: seq<Member>, start: nat, i: nat, j: nat)
    requires i < j <= |ms|
    ensures HeaderAt(ms, start, i) + HEADER <= HeaderAt(ms, start, j)
    decreases j
  {
    hide Pad;
    if i < j - 1 { HeadersGrow(ms, start, i, j - 1); }
  }

  /** Header offsets identify the members. */
  lemma {:induction false} MemberFound(ms: seq<Member>, start: nat, k: nat, i: nat)
    requires i <= k < |ms|
    ensures FindMember(MemberEntries(ms, start), HeaderAt(ms, start, k), i) == k
    decreases k - i
  {
    hide HeaderAt;
    if i < k {
      HeadersGrow(ms, start, i, k);
      MemberFound(ms, start, k, i + 1);
    }
  }

  lemma {:induction false} OffsetSits(file: seq<Byte>, o: nat, syms: seq<SymRef>, ms: seq<Member>, start: nat, i: nat)
    requires (forall k :: 0 <= k < |syms| ==> syms[k].member < |ms|) && i < |syms| && Sits(file, o, Offsets(syms, ms, start))
    ensures Sits(file, o + 4 * i, BE4(HeaderAt(ms, start, syms[i].member)))
    decreases i
  {
    hide BE4, HeaderAt;
    SitsParts(file, o, BE4(HeaderAt(ms, start, syms[0].member)), Offsets(syms[1..], ms, start));
    if i > 0 { OffsetSits(file, o + 4, syms[1..], ms, start, i - 1); }
  }

  lemma {:induction false} OffsetsSize(syms: seq<SymRef>, ms: seq<Member>, start: nat)
    requires forall k :: 0 <= k < |syms| ==> syms[k].member < |ms|
    ensures |Offsets(syms, ms, start)| == 4 * |syms|
    decreases |syms|
  {
    hide BE4, HeaderAt;
    if syms != [] { OffsetsSize(syms[1..], ms, start); }
  }

  lemma {:induction false} NamesParts(a: seq<SymRef>, b: seq<SymRef>)
    requires forall i :: 0 <= i < |a + b| ==> IsName((a + b)[i].name)
    ensures forall i :: 0 <= i < |a| ==> IsName(a[i].name)
    ensures forall i :: 0 <= i < |b| ==> IsName(b[i].name)
    ensures NameBytes(a + b) == NameBytes(a) + NameBytes(b)
    decreases |a|
  {
    forall i | 0 <= i < |a| ensures IsName(a[i].name) { assert (a + b)[i] == a[i]; }
    forall i | 0 <= i < |b| ensures IsName(b[i].name) { assert (a + b)[|a| + i] == b[i]; }
    if a == [] {
      assert a + b == b;
    } else {
      assert (a + b)[1..] == a[1..] + b && (a + b)[0] == a[0];
      NamesParts(a[1..], b);
      Regroup(Chars(a[0].name) + [0], NameBytes(a[1..]), NameBytes(b));
    }
  }

  lemma {:induction false} Regroup(a: seq<Byte>, b: seq<Byte>, c: seq<Byte>)
    ensures a + (b + c) == a + b + c
  {
  }

  /** Name i of the index is the C string behind the names before it. */
  lemma {:induction false} NameSits(file: seq<Byte>, o: nat, syms: seq<SymRef>, i: nat)
    requires i < |syms| && (forall k :: 0 <= k < |syms| ==> IsName(syms[k].name)) && Sits(file, o, NameBytes(syms))
    ensures CString(file, o + |NameBytes(syms[..i])|) == syms[i].name
    ensures |NameBytes(syms[..i + 1])| == |NameBytes(syms[..i])| + |syms[i].name| + 1
    ensures |NameBytes(syms[..i + 1])| <= |NameBytes(syms)|
  {
    hide CString, Chars;
    var a, b := syms[..i], syms[i..];
    assert syms == a + b && syms[..i + 1] == a + [syms[i]] && b == [syms[i]] + syms[i + 1..];
    NamesParts(a, b); NamesParts(a, [syms[i]]); NamesParts([syms[i]], syms[i + 1..]);
    assert [syms[i]][1..] == [] && NameBytes([syms[i]]) == Chars(syms[i].name) + [0] + NameBytes([]);
    assert NameBytes([syms[i]]) == Chars(syms[i].name) + [0];
    SitsParts(file, o, NameBytes(a), NameBytes(b));
    SitsParts(file, o + |NameBytes(a)|, NameBytes([syms[i]]), NameBytes(syms[i + 1..]));
    CStringIs(file, o + |NameBytes(a)|, syms[i].name);
  }

  lemma {:induction false} IndexEnds(file: seq<Byte>, ix: nat, es: seq<Entry>, n: nat, nameAt: nat, sofar: seq<SymRef>)
    requires ix + 4 + 4 * n <= |file|
    ensures IndexFrom(file, ix, es, n, n, nameAt, sofar) == sofar
  {
  }

  lemma {:induction false} IndexOne(file: seq<Byte>, ix: nat, es: seq<Entry>, n: nat, i: nat, nameAt: nat, sofar: seq<SymRef>, s: SymRef)
    requires ix + 4 + 4 * n <= |file| && i < n && |sofar| < MAX_SYMS
    requires CString(file, ix + nameAt) == s.name != "" && FindMember(es, R32BE(file, ix + 4 + 4 * i), 0) == s.member
    requires nameAt + |s.name| + 1 < |file| - ix
    ensures IndexFrom(file, ix, es, n, i, nameAt, sofar) == IndexFrom(file, ix, es, n, i + 1, nameAt + |s.name| + 1, sofar + [s])
  {
    hide CString, FindMember, R32BE;
    assert SymRef(s.name, s.member) == s;
  }

  /** The index reads as the symbols it was written for. */
  lemma {:induction false} IndexRead(file: seq<Byte>, ix: nat, ms: seq<Member>, syms: seq<SymRef>, i: nat)
    requires GoodSyms(syms, |ms|) && |syms| <= MAX_SYMS && i <= |syms| && ix + 4 + 4 * |syms| <= |file|
    requires Sits(file, ix + 4, Offsets(syms, ms, FirstAt(syms))) && Sits(file, ix + 4 + 4 * |syms|, NameBytes(syms))
    requires ix + IndexSize(syms) < |file| && HeaderAt(ms, FirstAt(syms), |ms|) < 0x8000_0000
    ensures IndexFrom(file, ix, MemberEntries(ms, FirstAt(syms)), |syms|, i, 4 + 4 * |syms| + |NameBytes(syms[..i])|, syms[..i]) == syms
    decreases |syms| - i
  {
    hide HeaderAt, Offsets, NameBytes, CString, FindMember, FirstAt, MemberEntries, IndexFrom, R32BE, BE4;
    if i == |syms| {
      assert syms[..i] == syms;
      IndexEnds(file, ix, MemberEntries(ms, FirstAt(syms)), |syms|, 4 + 4 * |syms| + |NameBytes(syms[..i])|, syms);
    } else {
      var start := FirstAt(syms);
      OffsetSits(file, ix + 4, syms, ms, start, i);
      HeadersGrow(ms, start, syms[i].member, |ms|);
      BE4Read(file, ix + 4 + 4 * i, HeaderAt(ms, start, syms[i].member));
      MemberFound(ms, start, syms[i].member, 0);
      NameSits(file, ix + 4 + 4 * |syms|, syms, i);
      assert syms[..i + 1] == syms[..i] + [syms[i]];
      IndexOne(file, ix, MemberEntries(ms, start), |syms|, i, 4 + 4 * |syms| + |NameBytes(syms[..i])|, syms[..i], syms[i]);
      IndexRead(file, ix, ms, syms, i + 1);
    }
  }

  // ----- The whole archive -----

  lemma {:induction false} MembersSize(ms: seq<Member>, start: nat)
    requires GoodMembers(ms)
    ensures HeaderAt(ms, start, |ms|) == start + |AllMembers(ms)|
    decreases |ms|
  {
    hide MemberBytes, HeaderAt, AllMembers;
    if ms == [] {
      NoSize(start);
    } else {
      OneMemberFirst(ms);
      HeaderShift(ms, start, |ms| - 1);
      MembersSize(ms[1..], start + |MemberBytes(ms[0])|);
    }
  }

  lemma {:induction false} NoSize(start: nat)
    ensures HeaderAt([], start, 0) == start && AllMembers([]) == []
  {
  }

  lemma {:induction false} IndexBytesSize(syms: seq<SymRef>, ms: seq<Member>)
    requires GoodSyms(syms, |ms|)
    ensures |IndexBytes(syms, ms)| == IndexSize(syms)
  {
    hide Offsets, NameBytes, BE4;
    OffsetsSize(syms, ms, FirstAt(syms));
  }

  /** The index part is passed over and remembered. */
  lemma {:induction false} IndexPartRead(file: seq<Byte>, data: seq<Byte>, p: nat, who: Reader)
    requires Sits(file, p, Part([47], data)) && |data| < 0x8000_0000 && p % 2 == 0
    ensures ScanFrom(file, p, Scan([], -1, []), who) == ScanFrom(file, p + |Part([47], data)|, Scan([], p + HEADER, []), who)
  {
    hide NameLength, ParseDec, Part;
    PartRead(file, p, [47], data);
    SitsByte(file, p, [47], 0);
    NameLengthIs(file, p, [47], 0);
  }

  /** The archive without or with an index, as magic, index and members. */
  lemma {:induction false} ArchiveParts(ms: seq<Member>, syms: seq<SymRef>)
    requires GoodMembers(ms) && GoodSyms(syms, |ms|)
    ensures var f := ArchiveOf(ms, syms);
      && |f| == FirstAt(syms) + |AllMembers(ms)| && f[..8] == MAGIC && f[FirstAt(syms)..] == AllMembers(ms)
      && (syms != [] ==> Sits(f, 8, Part([47], IndexBytes(syms, ms))))
    ensures FirstAt(syms) % 2 == 0 && FirstAt(syms) >= 8
  {
    hide AllMembers, HeaderBytes, IndexBytes, IndexSize;
    IndexBytesSize(syms, ms);
    var f := ArchiveOf(ms, syms);
    if syms != [] {
      SitsBetween(MAGIC, Part([47], IndexBytes(syms, ms)), AllMembers(ms));
    }
  }

  /** Both programs find the members in order with their bytes, at their offsets. */
  lemma {:induction false} MembersScanned(ms: seq<Member>, syms: seq<SymRef>, who: Reader)
    requires GoodMembers(ms) && GoodSyms(syms, |ms|) && |ms| <= MaxMembers(who) && |ArchiveOf(ms, syms)| < 0x8000_0000
    ensures ScanFrom(ArchiveOf(ms, syms), 8, Scan([], -1, []), who)
      == Scan(MemberEntries(ms, FirstAt(syms)), if syms == [] then -1 else 68, [])
  {
    hide AllMembers, HeaderBytes, IndexBytes, IndexSize, ScanFrom, ArchiveOf, Part, MemberEntries, FirstAt;
    var f := ArchiveOf(ms, syms);
    ArchiveParts(ms, syms);
    assert [] + MemberEntries(ms, FirstAt(syms)) == MemberEntries(ms, FirstAt(syms));
    if syms == [] {
      FirstIs8();
      MembersRead(f, 8, ms, Scan([], -1, []), who);
    } else {
      PartEnds(syms, ms);
      IndexPartRead(f, IndexBytes(syms, ms), 8, who);
      MembersRead(f, FirstAt(syms), ms, Scan([], 68, []), who);
    }
  }

  /** What the linker reads is what the archiver was given: the members in order with
      their bytes, and an index that leads from every name to its member. */
  lemma {:induction false} ArchiveRoundTrip(ms: seq<Member>, syms: seq<SymRef>)
    requires GoodMembers(ms) && GoodSyms(syms, |ms|) && |ms| <= 256 && |syms| <= MAX_SYMS
    requires |ArchiveOf(ms, syms)| < 0x8000_0000
    ensures ReadArchive(ArchiveOf(ms, syms)) == Archive(MemberEntries(ms, FirstAt(syms)), syms)
  {
    hide AllMembers, HeaderBytes, IndexBytes, IndexSize, ScanFrom, ArchiveOf, Part, MemberEntries, ReadIndex, FirstAt;
    var f := ArchiveOf(ms, syms);
    ArchiveParts(ms, syms);
    MembersScanned(ms, syms, ByLinker);
    if syms == [] { NoIndex(f, MemberEntries(ms, FirstAt(syms))); } else { IndexIs(f, ms, syms); }
  }

  /** The archiver reads its own members back. */
  lemma {:induction false} MembersRoundTrip(ms: seq<Member>, syms: seq<SymRef>)
    requires GoodMembers(ms) && GoodSyms(syms, |ms|) && |ms| <= 64 && |ArchiveOf(ms, syms)| < 0x8000_0000
    ensures ReadMembers(ArchiveOf(ms, syms)) == Archive(MemberEntries(ms, FirstAt(syms)), [])
  {
    hide AllMembers, HeaderBytes, IndexBytes, IndexSize, ScanFrom, ArchiveOf, Part, MemberEntries, FirstAt;
    ArchiveParts(ms, syms);
    MembersScanned(ms, syms, ByArchiver);
  }

  lemma {:induction false} FirstIs8()
    ensures FirstAt([]) == 8
  {
  }

  lemma {:induction false} NoIndex(file: seq<Byte>, es: seq<Entry>)
    ensures ReadIndex(file, -1, es) == []
  {
  }

  lemma {:induction false} PartEnds(syms: seq<SymRef>, ms: seq<Member>)
    requires GoodSyms(syms, |ms|) && syms != []
    ensures FirstAt(syms) == 8 + |Part([47], IndexBytes(syms, ms))| && |IndexBytes(syms, ms)| + 68 <= FirstAt(syms)
  {
    hide IndexBytes, IndexSize, HeaderBytes;
    IndexBytesSize(syms, ms);
  }

  lemma {:induction false} IndexIs(f: seq<Byte>, ms: seq<Member>, syms: seq<SymRef>)
    requires GoodMembers(ms) && GoodSyms(syms, |ms|) && syms != [] && |syms| <= MAX_SYMS
    requires Sits(f, 8, Part([47], IndexBytes(syms, ms))) && |f| == FirstAt(syms) + |AllMembers(ms)| < 0x8000_0000
    ensures ReadIndex(f, 68, MemberEntries(ms, FirstAt(syms))) == syms
  {
    hide AllMembers, HeaderBytes, Part, MemberEntries, FirstAt, Offsets, NameBytes, BE4, IndexFrom, HeaderAt, R32BE;
    var b := IndexBytes(syms, ms);
    IndexBytesSize(syms, ms);
    PartEnds(syms, ms);
    PartRead(f, 8, [47], b);
    MembersSize(ms, FirstAt(syms));
    OffsetsSize(syms, ms, FirstAt(syms));
    SomeMember(ms, syms);
    SitsParts(f, 68, BE4(|syms|) + Offsets(syms, ms, FirstAt(syms)), NameBytes(syms));
    SitsParts(f, 68, BE4(|syms|), Offsets(syms, ms, FirstAt(syms)));
    BE4Read(f, 68, |syms|);
    SmallWord(|syms|);
    assert syms[..0] == [];
    NoNames();
    IndexRead(f, 68, ms, syms, 0);
  }

  lemma {:induction false} NoNames()
    ensures NameBytes([]) == []
  {
  }

  lemma {:induction false} SomeMember(ms: seq<Member>, syms: seq<SymRef>)
    requires GoodMembers(ms) && GoodSyms(syms, |ms|) && syms != []
    ensures |AllMembers(ms)| >= HEADER
  {
    hide MemberBytes;
    assert syms[0].member < |ms|;
  }
}
