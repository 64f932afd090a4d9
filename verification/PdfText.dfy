/** The text layer of the report writer: escaping, the content stream, and a reader of literal strings. Byte strings
    are strings of characters below 256. */
module PdfText {
  import opened Prelude

  // ---------------------------------------------------------------- escaping

  /** `s.replace(c, by)` for a single character `c`. */
  function Replace(s: string, c: char, replacement: string): string {
    if s == "" then "" else (if s[0] == c then replacement else [s[0]]) + Replace(s[1..], c, replacement)
  }

  /** Five replacements one after another. */
  function EscapeText(text: string): string {
    var slashes := Replace(text, '\\', "\\\\");
    var opening := Replace(slashes, '(', "\\(");
    var closed := Replace(opening, ')', "\\)");
    Replace(Replace(closed, '\r', " "), '\n', " ")
  }

  /** What the five replacements together do to one character. */
  function EscapeChar(c: char): string {
    if c == '\\' then "\\\\"
    else if c == '(' then "\\("
    else if c == ')' then "\\)"
    else if c == '\r' || c == '\n' then " "
    else [c]
  }

  function EscapeAll(text: string): string {
    if text == "" then "" else EscapeChar(text[0]) + EscapeAll(text[1..])
  }

  lemma {:induction false} ReplaceConcat(a: string, b: string, c: char, r: string)
    ensures Replace(a + b, c, r) == Replace(a, c, r) + Replace(b, c, r)
  {
    if a == "" {
      assert a + b == b;
    } else {
      assert (a + b)[1..] == a[1..] + b;
      ReplaceConcat(a[1..], b, c, r);
    }
  }

  lemma ReplaceShort(x: char, y: char, c: char, r: string)
    ensures Replace([x], c, r) == if x == c then r else [x]
    ensures Replace([x, y], c, r) == (if x == c then r else [x]) + (if y == c then r else [y])
  {
    assert [x, y][1..] == [y] && [y][1..] == "";
    assert Replace([y], c, r) == (if y == c then r else [y]) + Replace("", c, r);
  }

  lemma {:induction false} EscapeConcat(a: string, b: string)
    ensures EscapeText(a + b) == EscapeText(a) + EscapeText(b)
  {
    var a1, b1 := Replace(a, '\\', "\\\\"), Replace(b, '\\', "\\\\");
    ReplaceConcat(a, b, '\\', "\\\\");
    var a2, b2 := Replace(a1, '(', "\\("), Replace(b1, '(', "\\(");
    ReplaceConcat(a1, b1, '(', "\\(");
    var a3, b3 := Replace(a2, ')', "\\)"), Replace(b2, ')', "\\)");
    ReplaceConcat(a2, b2, ')', "\\)");
    var a4, b4 := Replace(a3, '\r', " "), Replace(b3, '\r', " ");
    ReplaceConcat(a3, b3, '\r', " ");
    ReplaceConcat(a4, b4, '\n', " ");
  }

  lemma EscapeOne(c: char)
    ensures EscapeText([c]) == EscapeChar(c)
  {
    var s1 := Replace([c], '\\', "\\\\");
    ReplaceShort(c, c, '\\', "\\\\");
    var second := if c == '\\' then '\\' else c;
    assert s1 == (if c == '\\' then ['\\', '\\'] else [c]);
    ReplaceShort(c, second, '(', "\\(");
    var s2 := Replace(s1, '(', "\\(");
    assert s2 == (if c == '\\' then ['\\', '\\'] else if c == '(' then ['\\', '('] else [c]);
    ReplaceShort(c, c, ')', "\\)");
    ReplaceShort('\\', '\\', ')', "\\)");
    ReplaceShort('\\', '(', ')', "\\)");
    var s3 := Replace(s2, ')', "\\)");
    assert s3 == (if c == '\\' then ['\\', '\\'] else if c == '(' then ['\\', '('] else if c == ')'
        then ['\\', ')'] else [c]);
    ReplaceShort(c, c, '\r', " ");
    ReplaceShort('\\', '\\', '\r', " ");
    ReplaceShort('\\', '(', '\r', " ");
    ReplaceShort('\\', ')', '\r', " ");
    var s4 := Replace(s3, '\r', " ");
    ReplaceShort(' ', ' ', '\n', " ");
    ReplaceShort(c, c, '\n', " ");
    ReplaceShort('\\', '\\', '\n', " ");
    ReplaceShort('\\', '(', '\n', " ");
    ReplaceShort('\\', ')', '\n', " ");
  }

  /** The replacements in sequence act character by character: none rewrites what an earlier one inserted. */
  lemma {:induction false} EscapeIsCharwise(text: string)
    ensures EscapeText(text) == EscapeAll(text)
  {
    if text != "" {
      assert text == [text[0]] + text[1..];
      EscapeConcat([text[0]], text[1..]);
      EscapeOne(text[0]);
      EscapeIsCharwise(text[1..]);
    }
  }

  /** `.encode("latin-1", "replace")` */
  function Encode(s: string): string {
    seq(|s|, i requires 0 <= i < |s| => if s[i] as int < 256 then s[i] else '?')
  }

  lemma EncodeConcat(a: string, b: string)
    ensures Encode(a + b) == Encode(a) + Encode(b)
  {
  }

  predicate Ascii(s: string) {
    forall i :: 0 <= i < |s| ==> s[i] as int < 128
  }

  lemma EncodeAscii(s: string)
    requires Ascii(s)
    ensures Encode(s) == s
  {
  }

  // ---------------------------------------------------------------- reading literal strings

  predicate IsOctal(c: char) {
    '0' <= c <= '7'
  }

  function OctalValue(s: string): int {
    if s == "" then 0 else OctalValue(s[..|s| - 1]) * 8 + (s[|s| - 1] as int - '0' as int)
  }

  /** How many octal digits, up to three, start the string. */
  function OctalLength(s: string): (n: nat)
    ensures n <= |s| && n <= 3
  {
    if |s| == 0 || !IsOctal(s[0]) then 0
    else if |s| == 1 || !IsOctal(s[1]) then 1
    else if |s| == 2 || !IsOctal(s[2]) then 2
    else 3
  }

  datatype Decoded = Decoded(text: string, rest: string)

  function Prepend(c: char, d: Option<Decoded>): Option<Decoded> {
    match d case None => None case Some(d) => Some(Decoded([c] + d.text, d.rest))
  }

  /** Read a literal string from behind its opening parenthesis, `depth` further parentheses being open, as section
      7.3.4.2 of ISO 32000-1 says; `None` when it does not end. */
  function ReadLiteral(s: string, depth: nat): (r: Option<Decoded>)
    ensures r.Some? ==> |r.value.rest| < |s|
    decreases |s|
  {
    if s == "" then None
    else if s[0] == ')' then
      if depth == 0 then Some(Decoded("", s[1..])) else Prepend(')', ReadLiteral(s[1..], depth - 1))
    else if s[0] == '(' then Prepend('(', ReadLiteral(s[1..], depth + 1))
    else if s[0] == '\r' then
      Prepend('\n', ReadLiteral(if |s| > 1 && s[1] == '\n' then s[2..] else s[1..], depth))
    else if s[0] != '\\' then Prepend(s[0], ReadLiteral(s[1..], depth))
    else if |s| == 1 then None
    else if s[1] == 'n' then Prepend('\n', ReadLiteral(s[2..], depth))
    else if s[1] == 'r' then Prepend('\r', ReadLiteral(s[2..], depth))
    else if s[1] == 't' then Prepend('\t', ReadLiteral(s[2..], depth))
    else if s[1] == 'b' then Prepend('\U{0008}', ReadLiteral(s[2..], depth))
    else if s[1] == 'f' then Prepend('\U{000C}', ReadLiteral(s[2..], depth))
    else if s[1] == '\n' then ReadLiteral(s[2..], depth)
    else if s[1] == '\r' then ReadLiteral(if |s| > 2 && s[2] == '\n' then s[3..] else s[2..], depth)
    else if IsOctal(s[1]) then
      var n := OctalLength(s[1..]);
      Prepend((OctalValue(s[1..][..n]) % 256) as char, ReadLiteral(s[1 + n..], depth))
    else Prepend(s[1], ReadLiteral(s[2..], depth))
  }

  /** The text as it is shown: line breaks as spaces. */
  function OneLine(text: string): string {
    seq(|text|, i requires 0 <= i < |text| => if text[i] == '\r' || text[i] == '\n' then ' ' else text[i])
  }

  lemma {:induction false} ReadEscapedAll(text: string, rest: string)
    ensures ReadLiteral(Encode(EscapeAll(text)) + ")" + rest, 0) == Some(Decoded(Encode(OneLine(text)), rest))
  {
    if text == "" {
      var s := Encode(EscapeAll(text)) + ")" + rest;
      assert s == ")" + rest && s[1..] == rest;
    } else {
      hide ReadLiteral;
      var more := Encode(EscapeAll(text[1..])) + ")" + rest;
      ReadEscapedAll(text[1..], rest);
      EncodeConcat(EscapeChar(text[0]), EscapeAll(text[1..]));
      EncodedHead(text);
      hide Encode, EscapeChar;
      var head := Encode(EscapeChar(text[0]));
      assert Encode(EscapeAll(text)) + ")" + rest == head + more;
      ReadOneChar(text[0], more, Encode(OneLine([text[0]]))[0]);
    }
  }

  lemma EncodedHead(text: string)
    requires text != ""
    ensures |Encode(OneLine([text[0]]))| == 1
    ensures Encode(OneLine(text)) == [Encode(OneLine([text[0]]))[0]] + Encode(OneLine(text[1..]))
  {
  }

  lemma ReadOneChar(c: char, more: string, shown: char)
    requires |Encode(OneLine([c]))| == 1 && shown == Encode(OneLine([c]))[0]
    ensures ReadLiteral(Encode(EscapeChar(c)) + more, 0) == Prepend(shown, ReadLiteral(more, 0))
  {
    var s := Encode(EscapeChar(c)) + more;
    if c == '\\' || c == '(' || c == ')' {
      assert s[0] == '\\' && s[1] == c && s[2..] == more;
    } else {
      assert s[0] == shown && s[1..] == more;
    }
  }

  /** An escaped line is read back as its text with line breaks as spaces (and characters outside Latin-1 as question
      marks), and the string ends at the writer's own closing parenthesis, whatever the text contains. */
  lemma EscapedLineReadsBack(text: string, rest: string)
    ensures ReadLiteral(Encode(EscapeText(text)) + ")" + rest, 0) == Some(Decoded(Encode(OneLine(text)), rest))
  {
    EscapeIsCharwise(text);
    ReadEscapedAll(text, rest);
  }

  // ---------------------------------------------------------------- the content stream

  /** `"\n".join(ops)` */
  function JoinLines(ops: seq<string>): string {
    if ops == [] then "" else if |ops| == 1 then ops[0] else ops[0] + "\n" + JoinLines(ops[1..])
  }

  const SETUP: seq<string> := ["BT", "/F1 10 Tf", "14 TL", "50 760 Td"]

  function ShowOp(line: string): string {
    "(" + EscapeText(line) + ") Tj"
  }

  function ShowOps(lines: seq<string>): seq<string>
    decreases |lines|
  {
    if lines == [] then []
    else
      var n := |lines| - 1;
      ShowOps(lines[..n]) + (if n > 0 then ["T*"] else []) + [ShowOp(lines[n])]
  }

  function ContentStream(lines: seq<string>): string {
    Encode(JoinLines(SETUP + ShowOps(lines) + ["ET"]))
  }

  /** The operator list as the writer grows it. */
  method BuildContent(lines: seq<string>) returns (content: string)
    ensures content == ContentStream(lines)
  {
    var ops := SETUP;
    for index := 0 to |lines|
      invariant ops == SETUP + ShowOps(lines[..index])
    {
      assert lines[..index + 1][..index] == lines[..index];
      if index > 0 {
        ops := ops + ["T*"];
      }
      ops := ops + [ShowOp(lines[index])];
    }
    assert lines[..|lines|] == lines;
    ops := ops + ["ET"];
    content := Encode(JoinLines(ops));
  }

  /** A string shown, and how many times the next-line operator has moved down before it. */
  datatype ShownText = ShownText(line: nat, text: string)

  /** The string operands of a content stream, in order, each with its line: `T*` moves to the next line, everything
      else between the strings is skipped. */
  function Shown(s: string, line: nat): Option<seq<ShownText>>
    decreases |s|
  {
    if s == "" then Some([])
    else if |s| >= 2 && s[0] == 'T' && s[1] == '*' then Shown(s[2..], line + 1)
    else if s[0] != '(' then Shown(s[1..], line)
    else
      match ReadLiteral(s[1..], 0)
      case None => None
      case Some(d) => Push(ShownText(line, d.text), Shown(d.rest, line))
  }

  function Push(text: ShownText, more: Option<seq<ShownText>>): Option<seq<ShownText>> {
    match more case None => None case Some(m) => Some([text] + m)
  }

  /** Neither a string nor a next-line operator starts in the text. */
  predicate ShowsNothing(s: string) {
    '(' !in s && '*' !in s && (s == "" || s[|s| - 1] != 'T')
  }

  lemma {:induction false} ShownSkips(s: string, more: string, line: nat)
    requires ShowsNothing(s)
    ensures Shown(s + more, line) == Shown(more, line)
  {
    if s == "" {
      assert s + more == more;
    } else {
      assert (s + more)[1..] == s[1..] + more && (s + more)[0] == s[0];
      assert |s| >= 2 ==> (s + more)[1] == s[1];
      ShownSkips(s[1..], more, line);
    }
  }

  lemma ShownString(line: string, more: string, k: nat)
    ensures Shown(Encode("(" + EscapeText(line) + ")") + more, k)
         == Push(ShownText(k, Encode(OneLine(line))), Shown(more, k))
  {
    var s := Encode("(" + EscapeText(line) + ")") + more;
    EncodeConcat("(" + EscapeText(line), ")");
    EncodeConcat("(", EscapeText(line));
    assert s == "(" + (Encode(EscapeText(line)) + ")" + more);
    assert s[1..] == Encode(EscapeText(line)) + ")" + more;
    EscapedLineReadsBack(line, more);
  }

  lemma JoinCons(op: string, more: seq<string>)
    requires more != []
    ensures JoinLines([op] + more) == op + "\n" + JoinLines(more)
  {
    assert ([op] + more)[1..] == more;
  }

  /** A setup operator shows nothing. */
  lemma ShownOperator(op: string, more: seq<string>, k: nat)
    requires Ascii(op) && ShowsNothing(op + "\n") && more != []
    ensures Shown(Encode(JoinLines([op] + more)), k) == Shown(Encode(JoinLines(more)), k)
  {
    hide Shown;
    var rest := JoinLines(more);
    JoinCons(op, more);
    EncodeConcat(op + "\n", rest);
    EncodeAscii(op + "\n");
    ShownSkips(op + "\n", Encode(rest), k);
  }

  lemma ShownNextLine(more: seq<string>, k: nat)
    requires more != []
    ensures Shown(Encode(JoinLines(["T*"] + more)), k) == Shown(Encode(JoinLines(more)), k + 1)
  {
    var rest := JoinLines(more);
    JoinCons("T*", more);
    EncodeConcat("T*\n", rest);
    EncodeAscii("T*\n");
    var s := "T*\n" + Encode(rest);
    assert Encode(JoinLines(["T*"] + more)) == s by { assert "T*" + "\n" + rest == "T*\n" + rest; }
    assert s[0] == 'T' && s[1] == '*' && s[2..] == "\n" + Encode(rest);
    ShownSkips("\n", Encode(rest), k + 1);
  }

  lemma ShownLine(line: string, more: seq<string>, k: nat)
    requires more != []
    ensures Shown(Encode(JoinLines([ShowOp(line)] + more)), k)
          == Push(ShownText(k, Encode(OneLine(line))), Shown(Encode(JoinLines(more)), k))
  {
    hide Shown, EscapeText, OneLine, Push;
    var rest := JoinLines(more);
    var operand := "(" + EscapeText(line) + ")";
    JoinCons(ShowOp(line), more);
    assert ShowOp(line) + "\n" + rest == operand + (" Tj\n" + rest);
    EncodeConcat(operand, " Tj\n" + rest);
    EncodeConcat(" Tj\n", rest);
    EncodeAscii(" Tj\n");
    ShownString(line, " Tj\n" + Encode(rest), k);
    ShownSkips(" Tj\n", Encode(rest), k);
  }

  /** The operators from line `k` on. */
  function Tail(lines: seq<string>, k: nat): (ops: seq<string>)
    requires k <= |lines|
    ensures ops != []
    decreases |lines| - k
  {
    if k == |lines| then ["ET"]
    else (if k > 0 then ["T*"] else []) + ([ShowOp(lines[k])] + Tail(lines, k + 1))
  }

  /** A text as a single line of Latin-1: a space for each line break, a question mark for what Latin-1 lacks. */
  function Rendered(text: string): string {
    seq(|text|, i requires 0 <= i < |text| =>
      if text[i] == '\r' || text[i] == '\n' then ' ' else if text[i] as int >= 256 then '?' else text[i])
  }

  lemma EncodedIsRendered(text: string)
    ensures Encode(OneLine(text)) == Rendered(text)
  {
  }

  /** What a reader should see: each line once, one below the other from line `k` on. */
  function Visible(lines: seq<string>, k: nat): seq<ShownText> {
    seq(|lines|, i requires 0 <= i < |lines| => ShownText(k + i, Rendered(lines[i])))
  }

  lemma VisibleCons(line: string, more: seq<string>, k: nat)
    ensures Visible([line] + more, k) == [ShownText(k, Rendered(line))] + Visible(more, k + 1)
  {
    hide Rendered;
  }

  lemma VisibleNone(k: nat)
    ensures Visible([], k) == []
  {
  }

  lemma {:induction false} ShownOps(lines: seq<string>, k: nat)
    requires k <= |lines|
    ensures Shown(Encode(JoinLines(Tail(lines, k))), if k > 0 then k - 1 else 0) == Some(Visible(lines[k..], k))
    decreases |lines| - k
  {
    hide Encode, JoinLines, ShowOp, OneLine, Shown, Rendered;
    if k == |lines| {
      ShownEnd(if k > 0 then k - 1 else 0);
      assert lines[k..] == [];
      VisibleNone(k);
    } else {
      ShownOps(lines, k + 1);
      var more := Tail(lines, k + 1);
      ShownLine(lines[k], more, k);
      assert lines[k..] == [lines[k]] + lines[k + 1..];
      VisibleCons(lines[k], lines[k + 1..], k);
      EncodedIsRendered(lines[k]);
      hide Visible;
      var line := [ShowOp(lines[k])] + more;
      if k > 0 {
        ShownNextLine(line, k - 1);
      } else {
        assert Tail(lines, k) == line;
      }
    }
  }

  lemma ShownEnd(k: nat)
    ensures Shown(Encode(JoinLines(["ET"])), k) == Some([])
  {
    assert Encode("ET") == "ET" && "ET"[1..] == "T" && "T"[1..] == "";
  }

  lemma {:induction false} OpsAreTail(lines: seq<string>, k: nat)
    requires k <= |lines|
    ensures ShowOps(lines[..k]) + Tail(lines, k) == ShowOps(lines) + ["ET"]
    decreases |lines| - k
  {
    hide ShowOp;
    if k == |lines| {
      assert lines[..k] == lines;
    } else {
      OpsAreTail(lines, k + 1);
      assert lines[..k + 1][..k] == lines[..k];
    }
  }

  lemma ShownSetup(more: seq<string>)
    requires more != []
    ensures Shown(Encode(JoinLines(SETUP + more)), 0) == Shown(Encode(JoinLines(more)), 0)
  {
    hide Shown, Encode, JoinLines;
    var s3 := [SETUP[3]] + more;
    var s2 := [SETUP[2]] + s3;
    var s1 := [SETUP[1]] + s2;
    assert SETUP + more == [SETUP[0]] + s1;
    ShownOperator(SETUP[0], s1, 0);
    ShownOperator(SETUP[1], s2, 0);
    ShownOperator(SETUP[2], s3, 0);
    ShownOperator(SETUP[3], more, 0);
  }

  /** Every report line is shown exactly once, in order and one below the other, and nothing else is shown. */
  lemma LinesShown(lines: seq<string>)
    ensures Shown(ContentStream(lines), 0) == Some(Visible(lines, 0))
  {
    hide Shown, Encode, JoinLines, Tail, Visible;
    OpsAreTail(lines, 0);
    assert lines[..0] == [] && lines[0..] == lines;
    assert ShowOps([]) + Tail(lines, 0) == Tail(lines, 0);
    assert SETUP + ShowOps(lines) + ["ET"] == SETUP + (ShowOps(lines) + ["ET"]);
    ShownSetup(Tail(lines, 0));
    ShownOps(lines, 0);
  }
}
