/** The object table of the report writer, and a reader of it that knows only what ISO 32000-1 says: `startxref` at
    the end of the file, fixed-width cross-reference entries, object headers, streams delimited by /Length. */
module PdfFile {
  import opened Prelude
  import opened PdfText

  // ---------------------------------------------------------------- numbers

  predicate IsDigit(c: char) {
    '0' <= c <= '9'
  }

  predicate Digits(s: string) {
    forall i :: 0 <= i < |s| ==> IsDigit(s[i])
  }

  /** `"%d" % n` */
  function Dec(n: nat): (s: string)
    ensures s != "" && Digits(s)
  {
    var last := [('0' as int + n % 10) as char];
    if n < 10 then last else Dec(n / 10) + last
  }

  function Value(s: string): nat
    requires Digits(s)
  {
    if s == "" then 0 else Value(s[..|s| - 1]) * 10 + (s[|s| - 1] as int - '0' as int)
  }

  lemma {:induction false} ValueOfDec(n: nat)
    ensures Value(Dec(n)) == n
  {
    var s := Dec(n);
    if n >= 10 {
      ValueOfDec(n / 10);
      assert s[..|s| - 1] == Dec(n / 10);
    }
  }

  function Zeros(k: nat): (s: string)
    ensures |s| == k && Digits(s)
  {
    if k == 0 then "" else Zeros(k - 1) + "0"
  }

  /** `"%010d" % n` */
  function Pad10(n: nat): (s: string)
    ensures Digits(s)
  {
    var s := Dec(n);
    if |s| < 10 then Zeros(10 - |s|) + s else s
  }

  lemma {:induction false} ZerosAreWorthless(k: nat, s: string)
    requires Digits(s)
    ensures Value(Zeros(k) + s) == Value(s)
    decreases |s|, k
  {
    var t := Zeros(k) + s;
    if s != "" {
      assert t[..|t| - 1] == Zeros(k) + s[..|s| - 1];
      ZerosAreWorthless(k, s[..|s| - 1]);
    } else if k > 0 {
      assert t[..|t| - 1] == Zeros(k - 1) + "";
      ZerosAreWorthless(k - 1, "");
    }
  }

  function Pow10(k: nat): (p: nat)
    ensures p >= 1
  {
    if k == 0 then 1 else 10 * Pow10(k - 1)
  }

  lemma {:induction false} DecLength(n: nat, k: nat)
    requires k >= 1
    ensures |Dec(n)| <= k <==> n < Pow10(k)
  {
    if k == 1 {
      assert Pow10(1) == 10 * Pow10(0);
    } else if n >= 10 {
      DecLength(n / 10, k - 1);
    }
  }

  const OFFSET_LIMIT: nat := 10_000_000_000

  lemma LimitIsPower()
    ensures Pow10(10) == OFFSET_LIMIT
  {
    assert Pow10(2) == 100;
    assert Pow10(4) == 10 * Pow10(3);
    assert Pow10(6) == 10 * Pow10(5);
    assert Pow10(8) == 10 * Pow10(7);
    assert Pow10(10) == 10 * Pow10(9);
  }

  lemma PadExact(n: nat)
    ensures Value(Pad10(n)) == n
    ensures |Pad10(n)| == 10 <==> n < OFFSET_LIMIT
  {
    ValueOfDec(n);
    DecLength(n, 10);
    LimitIsPower();
    if |Dec(n)| < 10 {
      ZerosAreWorthless(10 - |Dec(n)|, Dec(n));
    }
  }

  // ---------------------------------------------------------------- the writer

  const HEADER := "%PDF-1.4\n"
  const END_OBJ := "\nendobj\n"
  const IN_USE := " 00000 n \n"
  const FREE := "0000000000 65535 f \n"

  function Obj(number: nat, body: string): string {
    Dec(number) + " 0 obj\n" + body + END_OBJ
  }

  /** The file up to and including the first `k` objects. */
  function Prefix(bodies: seq<string>, k: nat): string
    requires k <= |bodies|
  {
    if k == 0 then HEADER else Prefix(bodies, k - 1) + Obj(k, bodies[k - 1])
  }

  function Entry(offset: nat): string {
    Pad10(offset) + IN_USE
  }

  /** The entries of the first `k` objects. */
  function Entries(bodies: seq<string>, k: nat): string
    requires k <= |bodies|
  {
    if k == 0 then FREE else Entries(bodies, k - 1) + Entry(|Prefix(bodies, k - 1)|)
  }

  function SizePart(count: nat): string {
    "<< /Size " + Dec(count) + " "
  }

  function TrailerDict(count: nat): string {
    SizePart(count) + "/Root 1 0 R >>\n"
  }

  function Trailer(count: nat): string {
    "trailer\n" + TrailerDict(count)
  }

  function Table(bodies: seq<string>): string {
    "xref\n0 " + Dec(|bodies| + 1) + "\n" + Entries(bodies, |bodies|)
  }

  function Ending(start: nat): string {
    "startxref\n" + Dec(start) + "\n%%EOF"
  }

  function Assemble(bodies: seq<string>): string {
    var objects := Prefix(bodies, |bodies|);
    objects + Table(bodies) + Trailer(|bodies| + 1) + Ending(|objects|)
  }

  function StreamBody(content: string): string {
    "<< /Length " + Dec(|content|) + " >>\nstream\n" + content + "\nendstream"
  }

  function Catalog(): string { "<< /Type /Catalog " + "/Pages 2 0 R >>" }

  function Pages(): string { "<< /Type /Pages " + "/Kids [3 0 R] /Count 1 >>" }

  function PageHead(): string {
    "<< /Type /Page /Parent 2 0 R " + "/MediaBox [0 0 612 792] " + "/Resources << /Font << /F1 4 0 R >> >> "
  }

  function Page(): string { PageHead() + "/Contents 5 0 R >>" }

  function Font(): string { "<< /Type /Font /Subtype /Type1 /BaseFont /Helvetica >>" }

  function Objects(content: string): seq<string> {
    [Catalog(), Pages(), Page(), Font(), StreamBody(content)]
  }

  /** The writer: it appends objects while noting where each begins, then one entry for each noted offset. */
  method GeneratePdf(lines: seq<string>) returns (pdf: string)
    ensures pdf == Assemble(Objects(ContentStream(lines)))
  {
    hide ContentStream, StreamBody, Catalog, Pages, Page, Font, Dec, Pad10;
    var content := BuildContent(lines);
    var objects := Objects(content);
    pdf := HEADER;
    var offsets: seq<nat> := [];
    for number := 0 to |objects|
      invariant pdf == Prefix(objects, number)
      invariant |offsets| == number && forall i :: 0 <= i < number ==> offsets[i] == |Prefix(objects, i)|
    {
      offsets := offsets + [|pdf|];
      pdf := pdf + Obj(number + 1, objects[number]);
    }
    var start := |pdf|;
    var count := |objects| + 1;
    var table := FREE;
    for i := 0 to |offsets|
      invariant table == Entries(objects, i)
    {
      table := table + Entry(offsets[i]);
    }
    pdf := pdf + ("xref\n0 " + Dec(count) + "\n" + table) + Trailer(count) + Ending(start);
  }

  // ---------------------------------------------------------------- a reader

  function Expect(s: string, t: string): Option<string> {
    if |t| <= |s| && s[..|t|] == t then Some(s[|t|..]) else None
  }

  lemma ExpectOk(t: string, rest: string)
    ensures Expect(t + rest, t) == Some(rest)
  {
  }

  function LeadingDigits(s: string): (n: nat)
    ensures n <= |s| && Digits(s[..n])
  {
    if s == "" || !IsDigit(s[0]) then 0 else 1 + LeadingDigits(s[1..])
  }

  function TrailingDigits(s: string): (n: nat)
    ensures n <= |s| && Digits(s[|s| - n..])
  {
    if s == "" || !IsDigit(s[|s| - 1]) then 0 else 1 + TrailingDigits(s[..|s| - 1])
  }

  datatype Number = Number(value: nat, rest: string)

  function ReadNat(s: string): Option<Number> {
    var n := LeadingDigits(s);
    if n == 0 then None else Some(Number(Value(s[..n]), s[n..]))
  }

  lemma {:induction false} LeadingDigitsOk(digits: string, rest: string)
    requires Digits(digits) && (rest == "" || !IsDigit(rest[0]))
    ensures LeadingDigits(digits + rest) == |digits|
  {
    if digits == "" {
      assert digits + rest == rest;
    } else {
      assert (digits + rest)[1..] == digits[1..] + rest;
      LeadingDigitsOk(digits[1..], rest);
    }
  }

  lemma {:induction false} TrailingDigitsOk(front: string, digits: string)
    requires Digits(digits) && (front == "" || !IsDigit(front[|front| - 1]))
    ensures TrailingDigits(front + digits) == |digits|
  {
    if digits == "" {
      assert front + digits == front;
    } else {
      var s := front + digits;
      assert s[..|s| - 1] == front + digits[..|digits| - 1];
      TrailingDigitsOk(front, digits[..|digits| - 1]);
    }
  }

  lemma ReadNatOk(n: nat, rest: string)
    requires rest == "" || !IsDigit(rest[0])
    ensures ReadNat(Dec(n) + rest) == Some(Number(n, rest))
  {
    hide Dec, Value, LeadingDigits;
    LeadingDigitsOk(Dec(n), rest);
    ValueOfDec(n);
    var s := Dec(n) + rest;
    assert s[..|Dec(n)|] == Dec(n) && s[|Dec(n)|..] == rest;
  }

  /** The number on the line before the last, which has to follow a `startxref` line. */
  function ReadStart(pdf: string): Option<nat> {
    if |pdf| < 6 || pdf[|pdf| - 6..] != "\n%%EOF" then None
    else
      var s := pdf[..|pdf| - 6];
      var n := TrailingDigits(s);
      var front := s[..|s| - n];
      if n == 0 || |front| < 10 || front[|front| - 10..] != "startxref\n" then None
      else Some(Value(s[|s| - n..]))
  }

  lemma ReadStartOk(front: string, start: nat)
    ensures ReadStart(front + Ending(start)) == Some(start)
  {
    hide Dec, Value, TrailingDigits;
    var s := front + "startxref\n" + Dec(start);
    var pdf := front + Ending(start);
    assert pdf == s + "\n%%EOF";
    assert pdf[..|pdf| - 6] == s && pdf[|pdf| - 6..] == "\n%%EOF";
    var before := front + "startxref\n";
    assert before[|before| - 10..] == "startxref\n";
    TrailingDigitsOk(before, Dec(start));
    var n := |Dec(start)|;
    assert s[..|s| - n] == before && s[|s| - n..] == Dec(start);
    ValueOfDec(start);
  }

  /** A one-section cross-reference table: its size, and its entries with what follows them. */
  function ReadTable(s: string): Option<Number> {
    match Expect(s, "xref\n0 ")
    case None => None
    case Some(s) =>
      match ReadNat(s)
      case None => None
      case Some(count) =>
        match Expect(count.rest, "\n") case None => None case Some(entries) => Some(Number(count.value, entries))
  }

  lemma ReadTableOk(count: nat, entries: string)
    ensures ReadTable("xref\n0 " + Dec(count) + "\n" + entries) == Some(Number(count, entries))
  {
    hide Dec, ReadNat;
    assert "xref\n0 " + Dec(count) + "\n" + entries == "xref\n0 " + (Dec(count) + ("\n" + entries));
    ExpectOk("xref\n0 ", Dec(count) + ("\n" + entries));
    ReadNatOk(count, "\n" + entries);
    ExpectOk("\n", entries);
  }

  /** Entry `n`, at 20 bytes an entry (section 7.5.4): the offset of an object in use, `None` for a free one. */
  function ReadEntry(entries: string, n: nat): Option<nat> {
    if |entries| < 20 * n + 20 then None
    else
      var e := entries[20 * n..20 * n + 20];
      if Digits(e[..10]) && e[10] == ' ' && Digits(e[11..16]) && e[16..] == " n \n" then Some(Value(e[..10])) else None
  }

  function ReadHeader(s: string, number: nat): Option<string> {
    match ReadNat(s)
    case None => None
    case Some(found) => if found.value == number then Expect(found.rest, " 0 obj\n") else None
  }

  lemma ReadHeaderOk(number: nat, rest: string)
    ensures ReadHeader(Dec(number) + " 0 obj\n" + rest, number) == Some(rest)
  {
    hide Dec, ReadNat;
    assert Dec(number) + " 0 obj\n" + rest == Dec(number) + (" 0 obj\n" + rest);
    ReadNatOk(number, " 0 obj\n" + rest);
    ExpectOk(" 0 obj\n", rest);
  }

  /** What follows the header of object `number`, found as a reader finds it. */
  function Resolve(pdf: string, number: nat): Option<string> {
    match ReadStart(pdf)
    case None => None
    case Some(start) =>
      if start > |pdf| then None
      else
        match ReadTable(pdf[start..])
        case None => None
        case Some(table) =>
          if number >= table.value then None
          else
            match ReadEntry(table.rest, number)
            case None => None
            case Some(offset) => if offset > |pdf| then None else ReadHeader(pdf[offset..], number)
  }

  /** The content of a stream object, by its /Length, whatever bytes the content holds. */
  function ReadStream(body: string): Option<string> {
    match Expect(body, "<< /Length ")
    case None => None
    case Some(s) =>
      match ReadNat(s)
      case None => None
      case Some(length) =>
        match Expect(length.rest, " >>\nstream\n")
        case None => None
        case Some(s) =>
          if length.value > |s| || Expect(s[length.value..], "\nendstream").None? then None
          else Some(s[..length.value])
  }

  /** /Length is the length of the stream: a content that itself holds `endstream` is read back whole. */
  lemma StreamReadsBack(content: string, rest: string)
    ensures ReadStream(StreamBody(content) + rest) == Some(content)
  {
    hide Dec, ReadNat;
    var s3 := content + ("\nendstream" + rest);
    var s2 := " >>\nstream\n" + s3;
    var s1 := Dec(|content|) + s2;
    assert StreamBody(content) + rest == "<< /Length " + s1;
    ExpectOk("<< /Length ", s1);
    ReadNatOk(|content|, s2);
    ExpectOk(" >>\nstream\n", s3);
    assert s3[..|content|] == content && s3[|content|..] == "\nendstream" + rest;
    ExpectOk("\nendstream", rest);
  }

  // ---------------------------------------------------------------- reading back what was written

  /** Every object begins below ten gigabytes. */
  predicate FitsTable(bodies: seq<string>) {
    |Prefix(bodies, |bodies|)| < OFFSET_LIMIT
  }

  lemma {:induction false} PrefixGrows(bodies: seq<string>, i: nat, k: nat)
    requires i <= k <= |bodies|
    ensures |Prefix(bodies, i)| <= |Prefix(bodies, k)|
    ensures Prefix(bodies, k)[..|Prefix(bodies, i)|] == Prefix(bodies, i)
    decreases k
  {
    hide Obj;
    if i < k {
      PrefixGrows(bodies, i, k - 1);
    }
  }

  /** At its offset every object begins, header first. */
  lemma OffsetPointsAtObject(bodies: seq<string>, i: nat)
    requires i < |bodies|
    ensures |Prefix(bodies, i)| <= |Assemble(bodies)|
    ensures Obj(i + 1, bodies[i]) <= Assemble(bodies)[|Prefix(bodies, i)|..]
  {
    hide Obj, Table, Trailer, Ending;
    PrefixGrows(bodies, i + 1, |bodies|);
    PrefixGrows(bodies, i, |bodies|);
    var whole := Prefix(bodies, i + 1);
    var before := Prefix(bodies, i);
    var pdf := Assemble(bodies);
    assert pdf[..|whole|] == whole == before + Obj(i + 1, bodies[i]);
    assert pdf[|before|..][..|Obj(i + 1, bodies[i])|] == pdf[|before|..|whole|];
  }

  lemma EntryExact(offset: nat)
    requires offset < OFFSET_LIMIT
    ensures |Entry(offset)| == 20
    ensures Digits(Entry(offset)[..10]) && Value(Entry(offset)[..10]) == offset
    ensures Entry(offset)[10..] == IN_USE
  {
    hide Value, Pad10;
    PadExact(offset);
    assert Entry(offset)[..10] == Pad10(offset);
  }

  /** A cross-reference entry is 20 bytes long exactly when its offset has at most ten digits. */
  lemma EntryWidthIff(offset: nat)
    ensures |Entry(offset)| == 20 <==> offset < OFFSET_LIMIT
  {
    PadExact(offset);
  }

  lemma SliceOfFront(a: string, b: string, lo: nat, hi: nat)
    requires lo <= hi <= |a|
    ensures (a + b)[lo..hi] == a[lo..hi]
  {
  }

  lemma SliceOfBack(a: string, b: string)
    ensures (a + b)[|a|..|a| + |b|] == b
  {
  }

  lemma {:induction false} EntriesLength(bodies: seq<string>, k: nat)
    requires k <= |bodies| && FitsTable(bodies)
    ensures |Entries(bodies, k)| == 20 * k + 20 && Entries(bodies, k)[..20] == FREE
  {
    hide Prefix, Entry, FitsTable;
    if k > 0 {
      EntriesLength(bodies, k - 1);
      OffsetFits(bodies, k - 1);
      EntryExact(|Prefix(bodies, k - 1)|);
      SliceOfFront(Entries(bodies, k - 1), Entry(|Prefix(bodies, k - 1)|), 0, 20);
    }
  }

  lemma OffsetFits(bodies: seq<string>, i: nat)
    requires i <= |bodies| && FitsTable(bodies)
    ensures |Prefix(bodies, i)| < OFFSET_LIMIT
  {
    PrefixGrows(bodies, i, |bodies|);
  }

  /** Entry `i + 1` of the table is that of the object with index `i`. */
  lemma {:induction false} EntryAligned(bodies: seq<string>, k: nat, i: nat)
    requires i < k <= |bodies| && FitsTable(bodies)
    ensures 20 * i + 40 <= |Entries(bodies, k)|
    ensures Entries(bodies, k)[20 * i + 20..20 * i + 40] == Entry(|Prefix(bodies, i)|)
    decreases k
  {
    hide Prefix, Entry, FitsTable;
    var shorter, last := Entries(bodies, k - 1), Entry(|Prefix(bodies, k - 1)|);
    EntriesLength(bodies, k);
    EntriesLength(bodies, k - 1);
    assert Entries(bodies, k) == shorter + last;
    if i < k - 1 {
      EntryAligned(bodies, k - 1, i);
      SliceOfFront(shorter, last, 20 * i + 20, 20 * i + 40);
    } else {
      OffsetFits(bodies, i);
      EntryExact(|Prefix(bodies, i)|);
      SliceOfBack(shorter, last);
    }
  }

  lemma ReadEntryOk(bodies: seq<string>, n: nat, rest: string)
    requires n <= |bodies| && FitsTable(bodies)
    ensures ReadEntry(Entries(bodies, |bodies|) + rest, n) == if n == 0 then None else Some(|Prefix(bodies, n - 1)|)
  {
    hide Prefix, Entry, Entries, Value, FitsTable;
    var entries := Entries(bodies, |bodies|);
    EntriesLength(bodies, |bodies|);
    SliceOfFront(entries, rest, 20 * n, 20 * n + 20);
    var e := entries[20 * n..20 * n + 20];
    if n == 0 {
      assert e == FREE;
      assert e[17] == 'f' && e[16..][1] == e[17];
    } else {
      var i := n - 1;
      EntryAligned(bodies, |bodies|, i);
      assert e == Entry(|Prefix(bodies, i)|);
      OffsetFits(bodies, i);
      EntryExact(|Prefix(bodies, i)|);
      assert e[10] == IN_USE[0] && e[11..16] == IN_USE[1..6] && e[16..] == IN_USE[6..];
    }
  }

  lemma TableFound(bodies: seq<string>)
    ensures var pdf := Assemble(bodies);
            var start := |Prefix(bodies, |bodies|)|;
            && ReadStart(pdf) == Some(start) && start <= |pdf|
            && ReadTable(pdf[start..])
            == Some(Number(|bodies| + 1, Entries(bodies, |bodies|) + (Trailer(|bodies| + 1) + Ending(start))))
  {
    hide Prefix, Entries, Trailer, Ending, Dec, ReadTable, ReadStart;
    var objects := Prefix(bodies, |bodies|);
    var start := |objects|;
    var entries := Entries(bodies, |bodies|);
    var rest := Trailer(|bodies| + 1) + Ending(start);
    var pdf := Assemble(bodies);
    ReadStartOk(objects + Table(bodies) + Trailer(|bodies| + 1), start);
    var head := "xref\n0 " + Dec(|bodies| + 1) + "\n";
    assert Table(bodies) == head + entries;
    assert pdf == objects + (head + (entries + rest));
    assert pdf[start..] == head + (entries + rest);
    ReadTableOk(|bodies| + 1, entries + rest);
  }

  /** A reader that starts from the end of the file finds every object the writer wrote, and no other. */
  lemma EveryObjectResolves(bodies: seq<string>, number: nat)
    requires FitsTable(bodies)
    ensures 1 <= number <= |bodies| <==> Resolve(Assemble(bodies), number).Some?
    ensures 1 <= number <= |bodies| ==> bodies[number - 1] + END_OBJ <= Resolve(Assemble(bodies), number).value
  {
    hide Prefix, Entries, Trailer, Ending, Dec, ReadTable, ReadStart, ReadEntry, ReadHeader, Assemble, FitsTable;
    var pdf := Assemble(bodies);
    TableFound(bodies);
    if number <= |bodies| {
      ReadEntryOk(bodies, number, Trailer(|bodies| + 1) + Ending(|Prefix(bodies, |bodies|)|));
      if number > 0 {
        var body := bodies[number - 1];
        var offset := |Prefix(bodies, number - 1)|;
        OffsetPointsAtObject(bodies, number - 1);
        var found := pdf[offset..];
        var written := Obj(number, body);
        var rest := found[|written|..];
        assert found == written + rest;
        assert written + rest == Dec(number) + " 0 obj\n" + (body + END_OBJ + rest);
        ReadHeaderOk(number, body + END_OBJ + rest);
      }
    }
  }

  // ---------------------------------------------------------------- from the trailer to the page

  /** What follows the first occurrence of a key. */
  function AfterKey(s: string, key: string): Option<string> {
    match Expect(s, key)
    case Some(rest) => Some(rest)
    case None => if s == "" then None else AfterKey(s[1..], key)
  }

  /** The object number that stands after a key. */
  function ReadRef(s: string, key: string): Option<nat> {
    match AfterKey(s, key)
    case None => None
    case Some(s) =>
      match ReadNat(s)
      case None => None
      case Some(number) => if Expect(number.rest, " 0 R").Some? then Some(number.value) else None
  }

  /** No name that starts with this character begins in the text. */
  predicate NoName(s: string, c: char) {
    forall i :: 0 <= i < |s| && s[i] == '/' ==> i + 1 < |s| && s[i + 1] != c
  }

  lemma {:induction false} AfterKeyOk(before: string, key: string, rest: string)
    requires |key| >= 2 && key[0] == '/' && NoName(before, key[1])
    ensures AfterKey(before + key + rest, key) == Some(rest)
  {
    var s := before + key + rest;
    if before == "" {
      assert s == key + rest;
      ExpectOk(key, rest);
    } else {
      assert before[0] == '/' ==> s[..|key|][1] == before[1];
      assert Expect(s, key) == None;
      assert s[1..] == before[1..] + key + rest;
      assert forall i :: 0 <= i < |before| - 1 ==> before[1..][i] == before[i + 1];
      AfterKeyOk(before[1..], key, rest);
    }
  }

  lemma ReadRefOk(before: string, key: string, number: nat, rest: string)
    requires |key| >= 2 && key[0] == '/' && NoName(before, key[1])
    ensures ReadRef(before + key + (Dec(number) + (" 0 R" + rest)), key) == Some(number)
  {
    hide Dec, ReadNat, AfterKey, NoName;
    AfterKeyOk(before, key, Dec(number) + (" 0 R" + rest));
    ReadNatOk(number, " 0 R" + rest);
    ExpectOk(" 0 R", rest);
  }

  lemma RefInDict(head: string, key: string, number: nat, tail: string, rest: string)
    requires |key| >= 2 && key[0] == '/' && NoName(head, key[1])
    ensures ReadRef(head + (key + Dec(number) + " 0 R" + tail) + rest, key) == Some(number)
  {
    hide Dec, ReadRef, NoName;
    ReadRefOk(head, key, number, tail + rest);
    assert head + (key + Dec(number) + " 0 R" + tail) + rest == head + key + (Dec(number) + (" 0 R" + (tail + rest)));
  }

  /** The trailer: what follows the table's entries. */
  function ReadTrailer(pdf: string): Option<string> {
    match ReadStart(pdf)
    case None => None
    case Some(start) =>
      if start > |pdf| then None
      else
        match ReadTable(pdf[start..])
        case None => None
        case Some(table) =>
          if |table.rest| < 20 * table.value then None else Expect(table.rest[20 * table.value..], "trailer\n")
  }

  /** The body of the object that a key in `s` refers to. */
  function FollowRef(pdf: string, s: Option<string>, key: string): Option<string> {
    match s
    case None => None
    case Some(s) => match ReadRef(s, key) case None => None case Some(number) => Resolve(pdf, number)
  }

  /** The page's content stream, reached as a viewer does: trailer, /Root, /Pages, the first of /Kids, /Contents. */
  function Contents(pdf: string): Option<string> {
    var catalog := FollowRef(pdf, ReadTrailer(pdf), "/Root ");
    var pages := FollowRef(pdf, catalog, "/Pages ");
    var page := FollowRef(pdf, pages, "/Kids [");
    FollowRef(pdf, page, "/Contents ")
  }

  lemma CatalogRefers(rest: string)
    ensures ReadRef(Catalog() + rest, "/Pages ") == Some(2)
  {
    hide ReadRef;
    assert Dec(2) == "2";
    RefInDict("<< /Type /Catalog ", "/Pages ", 2, " >>", rest);
    assert "/Pages " + Dec(2) + " 0 R" + " >>" == "/Pages 2 0 R >>";
  }

  lemma PagesRefer(rest: string)
    ensures ReadRef(Pages() + rest, "/Kids [") == Some(3)
  {
    hide ReadRef;
    assert Dec(3) == "3";
    RefInDict("<< /Type /Pages ", "/Kids [", 3, "] /Count 1 >>", rest);
    assert "/Kids [" + Dec(3) + " 0 R" + "] /Count 1 >>" == "/Kids [3 0 R] /Count 1 >>";
  }

  lemma NoNameConcat(a: string, b: string, c: char)
    requires NoName(a, c) && NoName(b, c)
    ensures NoName(a + b, c)
  {
    forall i | 0 <= i < |a + b| && (a + b)[i] == '/' ensures i + 1 < |a + b| && (a + b)[i + 1] != c {
      if i < |a| {
        assert a[i] == '/';
      } else {
        assert b[i - |a|] == '/';
      }
    }
  }

  lemma PageHeadHasNoContents()
    ensures NoName(PageHead(), 'C')
  {
    var a, b := "<< /Type /Page /Parent 2 0 R ", "/MediaBox [0 0 612 792] ";
    var c := "/Resources << /Font << /F1 4 0 R >> >> ";
    NoNameConcat(a, b, 'C');
    NoNameConcat(a + b, c, 'C');
  }

  lemma PageRefers(rest: string)
    ensures ReadRef(Page() + rest, "/Contents ") == Some(5)
  {
    PageHeadHasNoContents();
    hide ReadRef, PageHead, NoName;
    assert Dec(5) == "5";
    RefInDict(PageHead(), "/Contents ", 5, " >>", rest);
    assert "/Contents " + Dec(5) + " 0 R" + " >>" == "/Contents 5 0 R >>";
  }

  lemma SizePartHasNoRoot(count: nat)
    ensures NoName(SizePart(count), 'R')
  {
    hide Dec;
    NoNameConcat("<< /Size ", Dec(count), 'R');
    NoNameConcat("<< /Size " + Dec(count), " ", 'R');
  }

  lemma TrailerRefers(count: nat, rest: string)
    ensures ReadRef(TrailerDict(count) + rest, "/Root ") == Some(1)
  {
    SizePartHasNoRoot(count);
    hide ReadRef, SizePart, NoName;
    assert Dec(1) == "1";
    RefInDict(SizePart(count), "/Root ", 1, " >>\n", rest);
    assert "/Root " + Dec(1) + " 0 R" + " >>\n" == "/Root 1 0 R >>\n";
  }

  lemma TrailerFound(bodies: seq<string>)
    requires FitsTable(bodies)
    ensures FollowRef(Assemble(bodies), ReadTrailer(Assemble(bodies)), "/Root ") == Resolve(Assemble(bodies), 1)
  {
    hide Prefix, Entries, Dec, ReadTable, ReadStart, Assemble, FitsTable, Resolve, ReadRef, Ending, TrailerDict;
    var start := |Prefix(bodies, |bodies|)|;
    var count := |bodies| + 1;
    var entries, dict := Entries(bodies, |bodies|), TrailerDict(count) + Ending(start);
    TableFound(bodies);
    EntriesLength(bodies, |bodies|);
    var more := Trailer(count) + Ending(start);
    assert (entries + more)[20 * count..] == more;
    assert more == "trailer\n" + dict;
    ExpectOk("trailer\n", dict);
    TrailerRefers(count, Ending(start));
  }

  /** What a viewer shows of the page: the strings of its content stream. */
  function Displayed(pdf: string): Option<seq<ShownText>> {
    match Contents(pdf)
    case None => None
    case Some(body) => match ReadStream(body) case None => None case Some(content) => Shown(content, 0)
  }

  lemma ObjectFound(bodies: seq<string>, number: nat) returns (rest: string)
    requires FitsTable(bodies) && 1 <= number <= |bodies|
    ensures Resolve(Assemble(bodies), number) == Some(bodies[number - 1] + rest)
  {
    hide Assemble, FitsTable, Resolve;
    EveryObjectResolves(bodies, number);
    var found := Resolve(Assemble(bodies), number).value;
    rest := found[|bodies[number - 1]|..];
    assert found == bodies[number - 1] + rest;
  }

  /** From the bytes of the file alone a reader recovers exactly the report's lines, one below the other, for files
      below ten gigabytes. */
  lemma ReportReadsBack(lines: seq<string>)
    requires FitsTable(Objects(ContentStream(lines)))
    ensures Displayed(Assemble(Objects(ContentStream(lines)))) == Some(Visible(lines, 0))
  {
    hide ContentStream, StreamBody, Catalog, Pages, Page, Font, Assemble, FitsTable;
    hide Resolve, ReadStream, Shown, Visible, ReadRef, ReadTrailer;
    var content := ContentStream(lines);
    var bodies := Objects(content);
    TrailerFound(bodies);
    var afterCatalog := ObjectFound(bodies, 1);
    CatalogRefers(afterCatalog);
    var afterPages := ObjectFound(bodies, 2);
    PagesRefer(afterPages);
    var afterPage := ObjectFound(bodies, 3);
    PageRefers(afterPage);
    var afterStream := ObjectFound(bodies, 5);
    StreamReadsBack(content, afterStream);
    LinesShown(lines);
  }
}
