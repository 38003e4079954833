/**
 The invoice PDF writer, `renderSimplePDF` in backend/internal/handler/handlers_admin.go.
 Characters stand for bytes. Readers follow sections 7.3.4.2, 7.3.8 and 7.5.4 of ISO 32000-1.
 */
module Pdf {
  import opened Options

  // ---------------------------------------------------------------------------
  // Numbers

  function Digit(n: nat): char
    requires n < 10
  {
    '0' + n as char
  }

  /** `%d` */
  function Decimal(n: nat): (s: string)
    ensures |s| > 0
    decreases n
  {
    if n < 10 then [Digit(n)] else Decimal(n / 10) + [Digit(n % 10)]
  }

  function Pow10(k: nat): (r: nat)
    ensures r > 0
  {
    if k == 0 then 1 else 10 * Pow10(k - 1)
  }

  /** The last `k` decimal digits of `n`, zero-padded; `%010d` for numbers of at most ten digits. */
  function Padded(n: nat, k: nat): (s: string)
    ensures |s| == k
  {
    if k == 0 then "" else Padded(n / 10, k - 1) + [Digit(n % 10)]
  }

  /** The number a string of digits denotes. */
  function ReadNumber(s: string): int {
    if s == "" then 0 else 10 * ReadNumber(s[..|s| - 1]) + (s[|s| - 1] as int - '0' as int)
  }

  lemma {:induction false} ReadDecimal(n: nat)
    ensures ReadNumber(Decimal(n)) == n
    decreases n
  {
    if n < 10 {
      assert Decimal(n)[..0] == "";
    } else {
      ReadDecimal(n / 10);
      assert Decimal(n)[..|Decimal(n)| - 1] == Decimal(n / 10);
    }
  }

  lemma {:induction false} ReadPadded(n: nat, k: nat)
    requires n < Pow10(k)
    ensures ReadNumber(Padded(n, k)) == n
  {
    if k > 0 {
      ReadPadded(n / 10, k - 1);
      assert Padded(n, k)[..k - 1] == Padded(n / 10, k - 1);
    }
  }

  // ---------------------------------------------------------------------------
  // Text

  function EscapeChar(c: char): string {
    if c == '\\' then "\\\\" else if c == '(' then "\\(" else if c == ')' then "\\)" else [c]
  }

  function Escape(line: string): string {
    if line == "" then "" else EscapeChar(line[0]) + Escape(line[1..])
  }

  predicate IsOctal(c: char) {
    '0' <= c <= '7'
  }

  /** How many octal digits, at most `max`, a text starts with. */
  function OctalLength(t: string, max: nat): (n: nat)
    ensures n <= |t| && n <= max
  {
    if max == 0 || t == "" || !IsOctal(t[0]) then 0 else 1 + OctalLength(t[1..], max - 1)
  }

  function ReadOctal(t: string): int {
    if t == "" then 0 else 8 * ReadOctal(t[..|t| - 1]) + (t[|t| - 1] as int - '0' as int)
  }

  /**
   What stands behind a backslash: the text it denotes and the characters it takes. Letters for control
   characters, one to three octal digits with overflow ignored, an end-of-line marker for nothing, and
   any other character for itself.
   */
  function ReadEscape(t: string): (r: (string, nat))
    requires t != ""
    ensures 1 <= r.1 <= |t|
  {
    var c, n := t[0], OctalLength(t, 3);
    if n > 0 then ([(ReadOctal(t[..n]) % 256) as char], n)
    else if c == 'n' then ("\n", 1)
    else if c == 'r' then ("\r", 1)
    else if c == 't' then ("\t", 1)
    else if c == 'b' then ([8 as char], 1)
    else if c == 'f' then ([12 as char], 1)
    else if c == '\r' then ("", if |t| > 1 && t[1] == '\n' then 2 else 1)
    else if c == '\n' then ("", 1)
    else ([c], 1)
  }

  /** The bytes a literal string denotes: escapes resolved, every other end-of-line marker read as one line feed. */
  function ReadLiteral(s: string): string
    decreases |s|
  {
    if s == "" then ""
    else if s[0] == '\\' && |s| > 1 then
      var (text, n) := ReadEscape(s[1..]);
      text + ReadLiteral(s[1 + n..])
    else if s[0] == '\r' then ['\n'] + ReadLiteral(if |s| > 1 && s[1] == '\n' then s[2..] else s[1..])
    else [s[0]] + ReadLiteral(s[1..])
  }

  /** CR and CR LF become LF. */
  function LineFeeds(s: string): string
    decreases |s|
  {
    if s == "" then ""
    else if s[0] == '\r' then ['\n'] + LineFeeds(if |s| > 1 && s[1] == '\n' then s[2..] else s[1..])
    else [s[0]] + LineFeeds(s[1..])
  }

  /** The length of a literal string's content: up to the parenthesis that closes it. */
  function LiteralLength(s: string, depth: nat): nat
    decreases |s|
  {
    if s == "" then 0
    else if s[0] == '\\' && |s| > 1 then 2 + LiteralLength(s[2..], depth)
    else if s[0] == ')' then (if depth == 0 then 0 else 1 + LiteralLength(s[1..], depth - 1))
    else 1 + LiteralLength(s[1..], if s[0] == '(' then depth + 1 else depth)
  }

  /** The escaped text reaches exactly to the parenthesis the writer puts behind it. */
  lemma {:induction false} LiteralEnds(line: string, tail: string)
    ensures LiteralLength(Escape(line) + [')'] + tail, 0) == |Escape(line)|
    decreases |line|
  {
    var s := Escape(line) + [')'] + tail;
    if line != "" {
      var e := EscapeChar(line[0]);
      assert s == e + (Escape(line[1..]) + [')'] + tail);
      assert s[|e|..] == Escape(line[1..]) + [')'] + tail;
      LiteralEnds(line[1..], tail);
    }
  }

  /** The three characters the writer escapes stand for themselves. */
  lemma EscapedIsItself(t: string)
    requires t != "" && (t[0] == '\\' || t[0] == '(' || t[0] == ')')
    ensures ReadEscape(t) == ([t[0]], 1)
  {
  }

  lemma {:induction false} ReadEscaped(line: string)
    ensures ReadLiteral(Escape(line)) == LineFeeds(line)
    decreases |line|
  {
    if line != "" {
      var e := EscapeChar(line[0]);
      assert Escape(line)[|e|..] == Escape(line[1..]);
      ReadEscaped(line[1..]);
      if |e| == 2 {
        assert Escape(line)[0] == '\\' && Escape(line)[1] == line[0];
        EscapedIsItself(Escape(line)[1..]);
      }
      if line[0] == '\r' && |line| > 1 {
        assert Escape(line[1..])[0] == if line[1] == '(' || line[1] == ')' then '\\' else line[1];
        if line[1] == '\n' {
          assert Escape(line) == ['\r', '\n'] + Escape(line[2..]) by {
            assert line[1..][1..] == line[2..];
          }
          assert Escape(line)[2..] == Escape(line[2..]);
          ReadEscaped(line[2..]);
        }
      }
    }
  }

  lemma {:induction false} LineFeedsKeeps(s: string)
    ensures '\r' !in LineFeeds(s)
    ensures '\r' !in s ==> LineFeeds(s) == s
    decreases |s|
  {
    if s != "" {
      LineFeedsKeeps(s[1..]);
      if s[0] == '\r' && |s| > 1 {
        LineFeedsKeeps(s[2..]);
      }
    }
  }

  /** A reader gets a line back unchanged exactly when it holds no carriage return. */
  lemma TextRoundTrip(line: string)
    ensures ReadLiteral(Escape(line)) == line <==> '\r' !in line
  {
    ReadEscaped(line);
    LineFeedsKeeps(line);
  }

  // ---------------------------------------------------------------------------
  // The content stream

  const PROLOGUE := "BT\n/F1 12 Tf\n50 780 Td\n14 TL\n"
  const SHOW := " Tj T*\n"
  const EPILOGUE := "ET\n"

  function ShowLines(lines: seq<string>): string {
    if lines == [] then "" else ShowLines(lines[..|lines| - 1]) + ("(" + Escape(lines[|lines| - 1]) + ")" + SHOW)
  }

  function Content(lines: seq<string>): string {
    PROLOGUE + ShowLines(lines) + EPILOGUE
  }

  predicate StartsWith(s: string, at: int, text: string) {
    0 <= at && at + |text| <= |s| && s[at..at + |text|] == text
  }

  /** What a reader expects behind a shown text: the parenthesis, the show operator and the line operator. */
  function ShowEnd(): string { ") Tj T*\n" }

  /** What it expects around the texts: the text object, its font, its position and its leading. */
  function TextStart(): string { "BT\n/F1 12 Tf\n50 780 Td\n14 TL\n" }

  predicate AtEpilogue(s: string) {
    s == "ET\n"
  }

  /** The texts shown by a content stream, read from behind its prologue; nothing but texts and the epilogue may follow. */
  function ReadTexts(s: string): Option<seq<string>>
    decreases |s|
  {
    if AtEpilogue(s) then Some([])
    else if s == "" || s[0] != '(' then None
    else
      var n := LiteralLength(s[1..], 0);
      if !StartsWith(s, 1 + n, ShowEnd()) then None
      else
        match ReadTexts(s[1 + n + |ShowEnd()|..])
        case None => None
        case Some(more) => Some([ReadLiteral(s[1..1 + n])] + more)
  }

  function ReadBack(lines: seq<string>): seq<string> {
    if lines == [] then [] else [LineFeeds(lines[0])] + ReadBack(lines[1..])
  }

  function ShowFrom(lines: seq<string>): string {
    if lines == [] then "" else ("(" + Escape(lines[0]) + ")" + SHOW) + ShowFrom(lines[1..])
  }

  lemma {:induction false} ShowFromSnoc(lines: seq<string>, last: string)
    ensures ShowFrom(lines + [last]) == ShowFrom(lines) + ("(" + Escape(last) + ")" + SHOW)
    decreases |lines|
  {
    hide Escape;
    if lines == [] {
      assert lines + [last] == [last];
      assert [last][1..] == [];
    } else {
      assert (lines + [last])[1..] == lines[1..] + [last];
      ShowFromSnoc(lines[1..], last);
    }
  }

  lemma {:induction false} ShowBothWays(lines: seq<string>)
    ensures ShowLines(lines) == ShowFrom(lines)
    decreases |lines|
  {
    hide Escape;
    if lines != [] {
      var front, last := lines[..|lines| - 1], lines[|lines| - 1];
      assert lines == front + [last];
      ShowBothWays(front);
      ShowFromSnoc(front, last);
    }
  }

  lemma {:induction false} TextsReadBack(lines: seq<string>)
    ensures ReadTexts(ShowFrom(lines) + EPILOGUE) == Some(ReadBack(lines))
    decreases |lines|
  {
    hide Escape, ReadTexts, LineFeeds;
    if lines == [] {
      NoTexts();
      assert "" + EPILOGUE == EPILOGUE;
    } else {
      var more := ShowFrom(lines[1..]) + EPILOGUE;
      assert ShowFrom(lines) + EPILOGUE == "(" + Escape(lines[0]) + ")" + SHOW + more;
      OneText(lines[0], more);
      TextsReadBack(lines[1..]);
    }
  }

  lemma NoTexts()
    ensures ReadTexts(EPILOGUE) == Some([])
  {
  }

  /** One shown text in front of the rest. */
  lemma OneText(line: string, more: string)
    ensures ReadTexts("(" + Escape(line) + ")" + SHOW + more) ==
            match ReadTexts(more) case None => None case Some(texts) => Some([LineFeeds(line)] + texts)
  {
    hide Escape, LiteralLength, ReadLiteral, LineFeeds, ReadTexts;
    var e, s := Escape(line), "(" + Escape(line) + ")" + SHOW + more;
    var next := 1 + |e| + |ShowEnd()|;
    assert s[1..] == e + [')'] + (SHOW + more);
    LiteralEnds(line, SHOW + more);
    assert s[0] == '(' && s[1..1 + |e|] == e;
    assert s[1 + |e|..next] == ShowEnd();
    assert s[next..] == more;
    ReadEscaped(line);
    TextsStep(s);
  }

  lemma TextsStep(s: string)
    requires !AtEpilogue(s) && s != "" && s[0] == '('
    ensures var n := LiteralLength(s[1..], 0);
            ReadTexts(s) ==
              if !StartsWith(s, 1 + n, ShowEnd()) then None
              else
                match ReadTexts(s[1 + n + |ShowEnd()|..])
                case None => None
                case Some(more) => Some([ReadLiteral(s[1..1 + n])] + more)
  {
    hide LiteralLength, ReadLiteral, AtEpilogue, StartsWith, ShowEnd;
  }

  /** The content stream holds the lines: reading its texts returns each of them, with line feeds for line ends. */
  lemma ContentReadsBack(lines: seq<string>)
    ensures TextStart() <= Content(lines)
    ensures ReadTexts(Content(lines)[|TextStart()|..]) == Some(ReadBack(lines))
  {
    hide ShowLines, ReadTexts, ShowFrom, TextStart;
    ShowBothWays(lines);
    TextsReadBack(lines);
    StartIsPrologue();
    assert Content(lines)[|PROLOGUE|..] == ShowLines(lines) + EPILOGUE;
  }

  lemma StartIsPrologue()
    ensures TextStart() == PROLOGUE
  {
  }

  // ---------------------------------------------------------------------------
  // The file

  const HEADER := "%PDF-1.4\n"

  function StreamObject(stream: string): string {
    "<< /Length " + Decimal(|stream|) + " >>\nstream\n" + stream + "endstream"
  }

  /** The dictionaries of the objects that do not depend on the text. */
  datatype Dictionaries = Dictionaries(catalog: string, pages: string, page: string, font: string)

  function Catalog(): string { "<< /Type /Catalog " + "/Pages " + "2" + " 0 R" + " >>" }

  function Pages(): string { "<< /Type /Pages " + "/Kids [" + "3" + " 0 R" + "] /Count 1 >>" }

  function Box(): string { "/Parent 2 0 R /MediaBox [0 0 595 842] " }

  function Resources(): string { " /Resources << /Font << " }

  function Page(): string {
    "<< /Type /Page " + Box() + "/Contents " + "4" + " 0 R" + Resources() + "/F1 " + "5" + " 0 R" + " >> >> >>"
  }

  function Font(): string { "<< /Type /Font " + "/Subtype /Type1 /BaseFont /Helvetica >>" }

  /** The program's own. */
  function Fixed(): Dictionaries {
    Dictionaries(Catalog(), Pages(), Page(), Font())
  }

  function Objects(fixed: Dictionaries, stream: string): (objs: seq<string>)
    ensures |objs| == 5
  {
    [fixed.catalog, fixed.pages, fixed.page, StreamObject(stream), fixed.font]
  }

  function ObjectLabel(i: nat): string {
    Decimal(i) + " 0 obj\n"
  }

  /** The header and the first `k` numbered objects. */
  function Body(objs: seq<string>, k: nat): string
    requires k <= |objs|
  {
    if k == 0 then HEADER else Body(objs, k - 1) + (ObjectLabel(k) + objs[k - 1] + "\nendobj\n")
  }

  function XrefHead(): string { "xref\n0 6\n0000000000 65535 f \n" }

  /** `%010d` */
  function ZeroPadded(n: nat): string {
    if n < Pow10(10) then Padded(n, 10) else Decimal(n)
  }

  function Entry(offset: nat): string {
    ZeroPadded(offset) + " 00000 n \n"
  }

  /** The first `k` entries of objects. */
  function Entries(objs: seq<string>, k: nat): string
    requires k <= |objs|
  {
    if k == 0 then "" else Entries(objs, k - 1) + Entry(|Body(objs, k - 1)|)
  }

  function TrailerHead(): string { "trailer\n<< /Size 6 " + "/Root " + "1" + " 0 R" + " >>\n" }

  function Footer(): string { "\n%%EOF\n" }

  function Trailer(xrefPos: nat): string {
    TrailerHead() + "startxref\n" + Decimal(xrefPos) + Footer()
  }

  function Assemble(objs: seq<string>): string {
    var body := Body(objs, |objs|);
    body + XrefHead() + Entries(objs, |objs|) + Trailer(|body|)
  }

  function Render(fixed: Dictionaries, lines: seq<string>): string {
    Assemble(Objects(fixed, Content(lines)))
  }

  /** The content stream, line by line. */
  method BuildContent(lines: seq<string>) returns (content: string)
    ensures content == Content(lines)
  {
    hide Escape;
    content := PROLOGUE;
    assert lines[..0] == [];
    for i := 0 to |lines|
      invariant content == PROLOGUE + ShowLines(lines[..i])
    {
      assert lines[..i + 1][..i] == lines[..i];
      content := content + ("(" + Escape(lines[i]) + ")" + SHOW);
    }
    assert lines[..|lines|] == lines;
    content := content + EPILOGUE;
  }

  /** The writer as the program runs it: it emits objects and records where each one starts. */
  method RenderSimplePDF(fixed: Dictionaries, lines: seq<string>) returns (out: string)
    ensures out == Render(fixed, lines)
  {
    hide Content, Objects, ObjectLabel, XrefHead, Entry, Trailer;
    var stream := BuildContent(lines);
    var objs := Objects(fixed, stream);
    out := HEADER;
    var offsets := new nat[|objs| + 1](_ => 0);
    for i := 0 to |objs|
      invariant out == Body(objs, i)
      invariant forall k | 0 <= k < i :: offsets[k + 1] == |Body(objs, k)|
    {
      offsets[i + 1] := |out|;
      out := out + (ObjectLabel(i + 1) + objs[i] + "\nendobj\n");
    }
    var xrefPos := |out|;
    ghost var body := out;
    out := out + XrefHead();
    for i := 1 to |objs| + 1
      invariant out == body + XrefHead() + Entries(objs, i - 1)
    {
      assert offsets[(i - 1) + 1] == |Body(objs, i - 1)|;
      out := out + Entry(offsets[i]);
    }
    out := out + Trailer(xrefPos);
  }

  // ---------------------------------------------------------------------------
  // Where things are in the file

  /** Each object starts where its body prefix ends. */
  lemma {:induction false} ObjectAt(objs: seq<string>, i: nat, k: nat)
    requires 1 <= i <= k <= |objs|
    ensures StartsWith(Body(objs, k), |Body(objs, i - 1)|, ObjectLabel(i) + objs[i - 1] + "\nendobj\n")
    decreases k
  {
    hide ObjectLabel;
    var piece := ObjectLabel(i) + objs[i - 1] + "\nendobj\n";
    if i == k {
      assert Body(objs, k) == Body(objs, k - 1) + piece;
    } else {
      ObjectAt(objs, i, k - 1);
      var front := Body(objs, k - 1);
      assert front <= Body(objs, k);
    }
  }

  lemma {:induction false} BodyGrows(objs: seq<string>, i: nat, k: nat)
    requires i <= k <= |objs|
    ensures |Body(objs, i)| <= |Body(objs, k)|
    decreases k
  {
    if i < k {
      BodyGrows(objs, i, k - 1);
    }
  }

  /** Entries are 20 bytes each as long as the offsets fit ten digits. */
  lemma {:induction false} EntryAt(objs: seq<string>, i: nat, k: nat)
    requires 1 <= i <= k <= |objs| && |Body(objs, |objs|)| < Pow10(10)
    ensures |Entries(objs, k)| == 20 * k
    ensures Entries(objs, k)[20 * (i - 1)..20 * i] == Entry(|Body(objs, i - 1)|)
    decreases k
  {
    hide Body, Entry, Pow10, ReadNumber;
    BodyGrows(objs, k - 1, |objs|);
    EntryIsTwenty(|Body(objs, k - 1)|);
    if k > 1 {
      EntryAt(objs, if i < k then i else i - 1, k - 1);
    }
    var front, last := Entries(objs, k - 1), Entry(|Body(objs, k - 1)|);
    assert Entries(objs, k) == front + last;
    SliceOfTwenties(front, last, i, k);
  }

  lemma SliceOfTwenties(front: string, last: string, i: nat, k: nat)
    requires 1 <= i <= k && |front| == 20 * (k - 1) && |last| == 20
    ensures |front + last| == 20 * k
    ensures (front + last)[20 * (i - 1)..20 * i] == if i < k then front[20 * (i - 1)..20 * i] else last
  {
  }

  lemma EntryIsTwenty(offset: nat)
    requires offset < Pow10(10)
    ensures |Entry(offset)| == 20 && ReadNumber(Entry(offset)[..10]) == offset && Entry(offset)[10..] == EntryTail()
  {
    hide Pow10, Padded;
    assert Entry(offset) == Padded(offset, 10) + EntryTail();
    assert Entry(offset)[..10] == Padded(offset, 10);
    ReadPadded(offset, 10);
  }

  lemma XrefHeadLayout()
    ensures |XrefHead()| == 29 && XrefHead() == TableHead()
  {
  }

  // ---------------------------------------------------------------------------
  // A reader, which has nothing but the bytes of the file

  function Version(): string { "%PDF-1.4\n" }

  function EndMark(): string { "%%EOF\n" }

  function StartXref(): string { "startxref\n" }

  function EntryTail(): string { " 00000 n \n" }

  function Label(i: nat): string { Decimal(i) + " 0 obj\n" }

  function LengthHead(): string { "<< /Length " }

  function StreamHead(): string { " >>\nstream\n" }

  function StreamEnd(): string { "endstream" }

  function Reference(): string { " 0 R" }

  predicate IsDigit(c: char) {
    '0' <= c <= '9'
  }

  /** How many digits a text starts with. */
  function DigitsLength(s: string): (n: nat)
    ensures n <= |s|
  {
    if s == "" || !IsDigit(s[0]) then 0 else 1 + DigitsLength(s[1..])
  }

  /** The number written at a position, and the position behind it. */
  function NumberAt(s: string, at: nat): (int, nat)
    requires at <= |s|
  {
    var n := DigitsLength(s[at..]);
    (ReadNumber(s[at..at + n]), at + n)
  }

  /** The last place, not behind `at`, where a text starts; -1 if there is none. */
  function FindLast(s: string, text: string, at: nat): (p: int)
    ensures -1 <= p <= at && (p >= 0 ==> StartsWith(s, p, text))
  {
    if StartsWith(s, at, text) then at else if at == 0 then -1 else FindLast(s, text, at - 1)
  }

  /** The number behind the last "startxref" of the file. */
  function XrefPosition(out: string): Option<int> {
    var p := FindLast(out, StartXref(), |out|);
    if p < 0 then None else Some(NumberAt(out, p + |StartXref()|).0)
  }

  /** The table's own line, the line that counts its entries, and entry 0. */
  function TableHead(): string { "xref\n0 6\n0000000000 65535 f \n" }

  /** The cross-reference entry of object `i`, in a table of 20-byte entries. */
  function EntryOf(out: string, xrefPos: nat, i: nat): string
    requires xrefPos + 9 + 20 * (i + 1) <= |out|
  {
    out[xrefPos + 9 + 20 * i..xrefPos + 9 + 20 * (i + 1)]
  }

  /** The start of object `i`, behind its label, found through the table. */
  function Locate(out: string, i: nat): Option<nat> {
    match XrefPosition(out)
    case None => None
    case Some(x) =>
      if !StartsWith(out, x, TableHead()) || x + 9 + 20 * (i + 1) > |out| then None
      else
        var entry := EntryOf(out, x, i);
        var offset := ReadNumber(entry[..10]);
        if entry[10..] == EntryTail() && StartsWith(out, offset, Label(i))
        then Some(offset + |Label(i)|) else None
  }

  /** The stream of the object at a position: as many bytes as its dictionary says, and "endstream" behind them. */
  function StreamAt(out: string, at: nat): Option<string> {
    if !StartsWith(out, at, LengthHead()) then None
    else
      var (n, behind) := NumberAt(out, at + |LengthHead()|);
      var start := behind + |StreamHead()|;
      if StartsWith(out, behind, StreamHead()) && n >= 0 && StartsWith(out, start + n, StreamEnd())
      then Some(out[start..start + n]) else None
  }

  /** The first place, not before `at`, where a text starts; -1 if there is none. */
  function FindFirst(s: string, text: string, at: nat): int
    decreases |s| - at
  {
    if at > |s| then -1 else if StartsWith(s, at, text) then at else FindFirst(s, text, at + 1)
  }

  /** The object that an entry refers to, in the dictionary at a position that has to start in a given way. */
  function Follow(out: string, from: Option<nat>, start: string, key: string): Option<nat> {
    if from.None? || !StartsWith(out, from.value, start) then None
    else
      var p := FindFirst(out, key, from.value);
      if p < 0 || p + |key| > |out| then None
      else
        var (n, behind) := NumberAt(out, p + |key|);
        if n >= 0 && StartsWith(out, behind, Reference()) then Locate(out, n) else None
  }

  /** The trailer, behind the six entries of the table. */
  function TrailerAt(out: string): Option<nat> {
    match XrefPosition(out)
    case None => None
    case Some(x) => if x >= 0 then Some(x + 9 + 20 * 6) else None
  }

  function RootOf(out: string): Option<nat> {
    Follow(out, TrailerAt(out), "trailer\n<< /Size 6 ", "/Root ")
  }

  function PageOf(out: string): Option<nat> {
    Follow(out, Follow(out, RootOf(out), "<< /Type /Catalog ", "/Pages "), "<< /Type /Pages ", "/Kids [")
  }

  function ContentOf(out: string): Option<nat> {
    Follow(out, PageOf(out), "<< /Type /Page ", "/Contents ")
  }

  function FontOf(out: string): Option<nat> {
    Follow(out, PageOf(out), "<< /Type /Page ", "/F1 ")
  }

  /** The texts of the page: from the trailer to the catalog, the page tree, the page with its font, and the stream it shows. */
  function ReadPdf(out: string): Option<seq<string>> {
    if !StartsWith(out, 0, Version()) || !StartsWith(out, |out| - |EndMark()|, EndMark()) then None
    else if ContentOf(out).None? then None
    else if FontOf(out).None? || !StartsWith(out, FontOf(out).value, "<< /Type /Font ") then None
    else
      match StreamAt(out, ContentOf(out).value)
      case None => None
      case Some(stream) => if TextStart() <= stream then ReadTexts(stream[|TextStart()|..]) else None
  }

  // ---------------------------------------------------------------------------
  // What the reader finds

  predicate AllDigits(s: string) {
    forall c | c in s :: IsDigit(c)
  }

  lemma {:induction false} DecimalIsDigits(n: nat)
    ensures AllDigits(Decimal(n))
    decreases n
  {
    if n >= 10 {
      DecimalIsDigits(n / 10);
    }
  }

  lemma {:induction false} DigitsEnd(digits: string, rest: string)
    requires AllDigits(digits) && rest != "" && !IsDigit(rest[0])
    ensures DigitsLength(digits + rest) == |digits|
    decreases |digits|
  {
    if digits == "" {
      assert digits + rest == rest;
    } else {
      assert digits[0] in digits;
      assert (digits + rest)[1..] == digits[1..] + rest;
      DigitsEnd(digits[1..], rest);
    }
  }

  /** A decimal number is read up to the first character that is no digit. */
  lemma ReadsNumber(s: string, at: nat, n: nat, text: string)
    requires StartsWith(s, at, Decimal(n) + text) && text != "" && !IsDigit(text[0])
    ensures NumberAt(s, at) == (n, at + |Decimal(n)|)
  {
    hide Decimal, DigitsLength, ReadNumber, AllDigits, IsDigit;
    var d := Decimal(n);
    var rest := s[at + |d|..];
    assert s[at..at + |d + text|] == d + text;
    assert s[at..at + |d|] == (d + text)[..|d|] == d;
    assert s[at..] == d + rest;
    assert rest[0] == s[at..at + |d + text|][|d|];
    DecimalIsDigits(n);
    DigitsEnd(d, rest);
    ReadDecimal(n);
  }

  lemma {:induction false} FindsLast(a: string, text: string, b: string, at: nat)
    requires text != "" && text[0] !in text[1..] && text[0] !in b && |a| <= at <= |a + text + b|
    ensures FindLast(a + text + b, text, at) == |a|
    decreases at
  {
    var s := a + text + b;
    if at == |a| {
      assert s[at..at + |text|] == text;
    } else {
      if at + |text| <= |s| {
        assert s[at] == (text[1..] + b)[at - |a| - 1];
        assert s[at] in text[1..] + b;
        assert s[at..at + |text|][0] == s[at];
      }
      FindsLast(a, text, b, at - 1);
    }
  }

  lemma NoDigitIsS(n: nat)
    ensures 's' !in Decimal(n)
  {
    DecimalIsDigits(n);
  }

  lemma StartXrefLayout()
    ensures |StartXref()| == 10 && StartXref()[0] == 's' && 's' !in StartXref()[1..]
    ensures 's' !in Footer() && Footer() != "" && !IsDigit(Footer()[0])
  {
  }

  /** The number at the end of the file is the position of the table. */
  lemma FindsTable(objs: seq<string>)
    ensures XrefPosition(Assemble(objs)) == Some(|Body(objs, |objs|)|)
  {
    hide Body, Entries, XrefHead, Trailer, TrailerHead, StartXref, Footer, Decimal, NumberAt, FindLast, StartsWith, IsDigit;
    var out, x := Assemble(objs), |Body(objs, |objs|)|;
    var front := Body(objs, |objs|) + XrefHead() + Entries(objs, |objs|) + TrailerHead();
    var back := Decimal(x) + Footer();
    TrailerShape(x);
    StartXrefLayout();
    NoDigitIsS(x);
    assert out == front + StartXref() + back;
    FindsLast(front, StartXref(), back, |out|);
    EndStarts(front + StartXref(), back);
    ReadsNumber(out, |front| + |StartXref()|, x, Footer());
  }

  lemma TrailerShape(x: nat)
    ensures Trailer(x) == TrailerHead() + StartXref() + Decimal(x) + Footer()
  {
    hide Decimal, TrailerHead, Footer;
  }

  lemma EndStarts(a: string, b: string)
    ensures StartsWith(a + b, |a|, b)
  {
  }

  lemma StartsApart(s: string, at: int, a: string, b: string)
    requires StartsWith(s, at, a + b)
    ensures StartsWith(s, at, a) && StartsWith(s, at + |a|, b)
  {
    assert s[at..at + |a|] == s[at..at + |a + b|][..|a|];
    assert s[at + |a|..at + |a| + |b|] == s[at..at + |a + b|][|a|..];
  }

  /** Through the table a reader finds every object, whatever it contains. */
  lemma LocatesObject(objs: seq<string>, i: nat)
    requires 1 <= i <= |objs| && |Assemble(objs)| < Pow10(10)
    ensures var out := Assemble(objs);
            Locate(out, i).Some? && StartsWith(out, Locate(out, i).value, objs[i - 1] + "\nendobj\n")
  {
    hide Assemble, Body, XrefPosition, ObjectLabel, Label, StartsWith, EntryOf, EntryTail, TableHead, ReadNumber, Pow10;
    FindsTable(objs);
    TableLayout(objs, i);
    ObjectLayout(objs, i);
    var out, offset := Assemble(objs), |Body(objs, i - 1)|;
    LabelAgrees(i);
    assert Label(i) + objs[i - 1] + "\nendobj\n" == Label(i) + (objs[i - 1] + "\nendobj\n");
    StartsApart(out, offset, Label(i), objs[i - 1] + "\nendobj\n");
  }

  lemma LabelAgrees(i: nat)
    ensures ObjectLabel(i) == Label(i)
  {
    hide Decimal;
  }

  lemma StreamShape(stream: string)
    ensures StreamObject(stream) == LengthHead() + Decimal(|stream|) + StreamHead() + stream + StreamEnd()
  {
    hide Decimal;
  }

  lemma StreamHeadLayout()
    ensures StreamHead() != "" && !IsDigit(StreamHead()[0])
  {
  }

  /** A stream object anywhere in a file gives its stream back, whatever bytes the stream holds. */
  lemma ReadsStream(out: string, at: nat, stream: string, tail: string)
    requires StartsWith(out, at, StreamObject(stream) + tail)
    ensures StreamAt(out, at) == Some(stream)
  {
    hide StreamObject, LengthHead, StreamHead, StreamEnd, Decimal, NumberAt, StartsWith, IsDigit;
    StreamShape(stream);
    var n, d := |stream|, Decimal(|stream|);
    var behind := at + |LengthHead()| + |d|;
    var start := behind + |StreamHead()|;
    var last := StreamEnd() + tail;
    assert StreamObject(stream) + tail == LengthHead() + (d + (StreamHead() + (stream + last)));
    StartsApart(out, at, LengthHead(), d + (StreamHead() + (stream + last)));
    assert d + (StreamHead() + (stream + last)) == (d + StreamHead()) + (stream + last);
    StartsApart(out, at + |LengthHead()|, d + StreamHead(), stream + last);
    StreamHeadLayout();
    ReadsNumber(out, at + |LengthHead()|, n, StreamHead());
    StartsApart(out, at + |LengthHead()|, d, StreamHead());
    StartsApart(out, start, stream, last);
    StartsApart(out, start + n, StreamEnd(), tail);
    Slice(out, start, stream);
  }

  lemma Slice(s: string, at: nat, text: string)
    requires StartsWith(s, at, text)
    ensures at + |text| <= |s| && s[at..at + |text|] == text
  {
  }

  lemma ObjectLayout(objs: seq<string>, i: nat)
    requires 1 <= i <= |objs|
    ensures StartsWith(Assemble(objs), |Body(objs, i - 1)|, ObjectLabel(i) + objs[i - 1] + "\nendobj\n")
  {
    hide Body, Entries, Trailer, ObjectLabel, XrefHead, StartsWith;
    var n := |objs|;
    var body, rest := Body(objs, n), XrefHead() + Entries(objs, n) + Trailer(|Body(objs, n)|);
    assert Assemble(objs) == body + rest;
    ObjectAt(objs, i, n);
    PrefixStarts(body, rest, |Body(objs, i - 1)|, ObjectLabel(i) + objs[i - 1] + "\nendobj\n");
  }

  lemma TableLayout(objs: seq<string>, i: nat)
    requires 1 <= i <= |objs| && |Assemble(objs)| < Pow10(10)
    ensures var out, xrefPos := Assemble(objs), |Body(objs, |objs|)|;
            StartsWith(out, xrefPos, TableHead()) && xrefPos + 9 + 20 * (i + 1) <= |out| &&
            ReadNumber(EntryOf(out, xrefPos, i)[..10]) == |Body(objs, i - 1)| &&
            EntryOf(out, xrefPos, i)[10..] == EntryTail()
  {
    hide Body, Entries, Trailer, XrefHead, TableHead, StartsWith, Entry, EntryTail, Pow10, ReadNumber, EntryOf;
    var n := |objs|;
    var body, head, entries, trailer := Body(objs, n), XrefHead(), Entries(objs, n), Trailer(|Body(objs, n)|);
    XrefHeadLayout();
    EntryAt(objs, i, n);
    BodyGrows(objs, i - 1, n);
    EntryIsTwenty(|Body(objs, i - 1)|);
    Layout(body, head, entries, trailer, i);
  }

  lemma Layout(body: string, head: string, entries: string, trailer: string, i: nat)
    requires |head| == 29 && head == TableHead() && 1 <= i && 20 * i <= |entries|
    ensures var out := body + head + entries + trailer;
            StartsWith(out, |body|, TableHead()) &&
            |body| + 9 + 20 * (i + 1) <= |out| && EntryOf(out, |body|, i) == entries[20 * (i - 1)..20 * i]
  {
    hide TableHead;
    var out := body + head + entries + trailer;
    assert out[|body|..|body| + 29] == head;
    SliceOfMiddle(body + head, entries, trailer, 20 * (i - 1), 20 * i);
  }

  lemma PrefixStarts(a: string, b: string, at: int, text: string)
    requires StartsWith(a, at, text)
    ensures StartsWith(a + b, at, text)
  {
  }

  lemma SliceOfMiddle(a: string, b: string, c: string, lo: nat, hi: nat)
    requires lo <= hi <= |b|
    ensures (a + b + c)[|a| + lo..|a| + hi] == b[lo..hi]
  {
  }

  /** The rendered file: its five objects are found through its own table, whatever the lines. */
  lemma RenderedFileIsFollowable(fixed: Dictionaries, lines: seq<string>, i: nat)
    requires 1 <= i <= 5 && |Render(fixed, lines)| < Pow10(10)
    ensures var out, objs := Render(fixed, lines), Objects(fixed, Content(lines));
            Locate(out, i).Some? && StartsWith(out, Locate(out, i).value, objs[i - 1] + "\nendobj\n")
  {
    hide Assemble, Content, Objects, Locate, StartsWith, Pow10;
    LocatesObject(Objects(fixed, Content(lines)), i);
  }

  /** The length in the file delimits exactly the content stream, even where a line looks like its end. */
  lemma StreamLengthIsRight(fixed: Dictionaries, lines: seq<string>)
    requires |Render(fixed, lines)| < Pow10(10)
    ensures var out := Render(fixed, lines);
            Locate(out, 4).Some? && StreamAt(out, Locate(out, 4).value) == Some(Content(lines))
  {
    hide Render, Content, StreamObject, Locate, StreamAt, StartsWith, Pow10;
    RenderedFileIsFollowable(fixed, lines, 4);
    var out := Render(fixed, lines);
    ReadsStream(out, Locate(out, 4).value, Content(lines), "\nendobj\n");
  }

  // ---------------------------------------------------------------------------
  // From the trailer to the page

  /** The first three characters of a key do not occur together before it. */
  predicate Clear(prefix: string, a: char, b: char, c: char) {
    var s := prefix + [a, b];
    forall k | 0 <= k < |prefix| :: s[k] != a || s[k + 1] != b || s[k + 2] != c
  }

  lemma {:induction false} FindsFirst(s: string, at: nat, prefix: string, key: string, rest: string, q: nat)
    requires StartsWith(s, at, prefix + key + rest) && |key| >= 3 && Clear(prefix, key[0], key[1], key[2])
    requires q <= |prefix|
    ensures FindFirst(s, key, at + q) == at + |prefix|
    decreases |prefix| - q
  {
    var all := prefix + key + rest;
    assert s[at..at + |all|] == all;
    if q == |prefix| {
      assert s[at + q..at + q + |key|] == all[q..q + |key|] == key;
    } else {
      NotHere(s, at, prefix, key, rest, q);
      FindsFirst(s, at, prefix, key, rest, q + 1);
    }
  }

  lemma NotHere(s: string, at: nat, prefix: string, key: string, rest: string, q: nat)
    requires StartsWith(s, at, prefix + key + rest) && |key| >= 3 && Clear(prefix, key[0], key[1], key[2])
    requires q < |prefix|
    ensures !StartsWith(s, at + q, key)
  {
    var all, short := prefix + key + rest, prefix + [key[0], key[1]];
    assert s[at..at + |all|] == all;
    assert forall k | 0 <= k < |short| :: s[at + k] == short[k];
    if at + q + |key| <= |s| {
      var here := s[at + q..at + q + |key|];
      assert here[0] == short[q] && here[1] == short[q + 1] && here[2] == short[q + 2];
    }
  }

  /** A reference behind a key leads to its object. */
  lemma Follows(out: string, at: nat, start: string, middle: string, key: string, n: nat, tail: string)
    requires StartsWith(out, at, start + middle + key + Decimal(n) + Reference() + tail)
    requires |key| >= 3 && Clear(start + middle, key[0], key[1], key[2])
    ensures Follow(out, Some(at), start, key) == Locate(out, n)
  {
    hide StartsWith, Clear, FindFirst, NumberAt, Decimal, Locate, Reference, IsDigit;
    var d := Decimal(n);
    ReferenceLayout();
    var prefix, rest := start + middle, d + Reference() + tail;
    assert start + middle + key + d + Reference() + tail == prefix + key + rest;
    FindsFirst(out, at, prefix, key, rest, 0);
    assert prefix + key + rest == start + (middle + key + rest);
    StartsApart(out, at, start, middle + key + rest);
    assert start + (middle + key + rest) == (prefix + key) + rest;
    StartsApart(out, at, prefix + key, rest);
    assert rest == d + (Reference() + tail);
    StartsApart(out, at + |prefix + key|, d, Reference() + tail);
    StartsApart(out, at + |prefix + key| + |d|, Reference(), tail);
    assert rest == (d + Reference()) + tail;
    StartsApart(out, at + |prefix + key|, d + Reference(), tail);
    ReadsNumber(out, at + |prefix + key|, n, Reference());
    Inside(out, at, prefix + key);
  }

  lemma Inside(s: string, at: nat, text: string)
    requires StartsWith(s, at, text)
    ensures at + |text| <= |s|
  {
  }

  lemma ReferenceLayout()
    ensures Reference() != "" && !IsDigit(Reference()[0])
  {
  }

  lemma OneDigit(n: nat)
    requires n < 10
    ensures Decimal(n) == [Digit(n)]
  {
  }

  lemma RootIsClear()
    ensures Clear("trailer\n<< /Size 6 " + "", '/', 'R', 'o')
  {
  }

  lemma PagesIsClear()
    ensures Clear("<< /Type /Catalog " + "", '/', 'P', 'a')
  {
  }

  lemma KidsIsClear()
    ensures Clear("<< /Type /Pages " + "", '/', 'K', 'i')
  {
  }

  lemma ContentsIsClear()
    ensures Clear("<< /Type /Page " + Box(), '/', 'C', 'o')
  {
  }

  /** What the page says between its box and its fonts. */
  function Between(): string { "/Contents " + "4" + " 0 R" + Resources() }

  lemma FontIsClear()
    ensures Clear("<< /Type /Page " + (Box() + Between()), '/', 'F', '1')
  {
    hide Clear, Box, Between;
    FontPieces();
    ClearTogether(Box(), Between(), '/', 'F', '1');
    ClearTogether("<< /Type /Page ", Box() + Between(), '/', 'F', '1');
  }

  lemma FontPieces()
    ensures Clear("<< /Type /Page ", '/', 'F', '1')
    ensures Clear(Box(), '/', 'F', '1') && |Box()| >= 2 && Box()[|Box()| - 1] != '/' && Box()[|Box()| - 2] != '/'
    ensures Clear(Between(), '/', 'F', '1')
  {
    hide Clear, Box, Between;
    PageIsClear();
    BoxIsClear();
    BetweenIsClear();
  }

  lemma PageIsClear()
    ensures Clear("<< /Type /Page ", '/', 'F', '1')
  {
  }

  lemma BoxIsClear()
    ensures Clear(Box(), '/', 'F', '1') && |Box()| >= 2 && Box()[|Box()| - 1] != '/' && Box()[|Box()| - 2] != '/'
  {
  }

  lemma BetweenIsClear()
    ensures Clear(Between(), '/', 'F', '1')
  {
  }

  lemma ClearTogether(p: string, q: string, a: char, b: char, c: char)
    requires Clear(p, a, b, c) && Clear(q, a, b, c)
    requires |p| >= 2 && p[|p| - 1] != a && p[|p| - 2] != a
    ensures Clear(p + q, a, b, c)
  {
    var s, t, u := p + q + [a, b], p + [a, b], q + [a, b];
    forall k | 0 <= k < |p + q|
      ensures s[k] != a || s[k + 1] != b || s[k + 2] != c
    {
      if k < |p| - 2 {
        assert s[k] == t[k] && s[k + 1] == t[k + 1] && s[k + 2] == t[k + 2];
      } else if k >= |p| {
        var l := k - |p|;
        assert s[k] == u[l] && s[k + 1] == u[l + 1] && s[k + 2] == u[l + 2];
      }
    }
  }

  const END_OBJECT := "\nendobj\n"

  lemma CatalogShape(tail: string)
    ensures Catalog() + tail == "<< /Type /Catalog " + "" + "/Pages " + Decimal(2) + Reference() + (" >>" + tail)
  {
    OneDigit(2);
  }

  lemma PagesShape(tail: string)
    ensures Pages() + tail == "<< /Type /Pages " + "" + "/Kids [" + Decimal(3) + Reference() + ("] /Count 1 >>" + tail)
  {
    OneDigit(3);
  }

  /** The page up to its contents, and up to its font. */
  lemma PageShapes(tail: string)
    ensures Page() + tail ==
            "<< /Type /Page " + Box() + "/Contents " + Decimal(4) + Reference() +
            (Resources() + "/F1 " + "5" + " 0 R" + " >> >> >>" + tail)
    ensures Page() + tail ==
            "<< /Type /Page " + (Box() + Between()) + "/F1 " + Decimal(5) + Reference() + (" >> >> >>" + tail)
  {
    hide Box, Resources;
    OneDigit(4);
    OneDigit(5);
    Reshape("<< /Type /Page ", Box(), "/Contents ", "4", " 0 R", Resources(), "/F1 ", "5", " 0 R", " >> >> >>", tail);
  }

  lemma Reshape(a: string, b: string, c: string, d: string, e: string, f: string, g: string, h: string, i: string, j: string, k: string)
    ensures a + b + c + d + e + f + g + h + i + j + k == a + b + c + d + e + (f + g + h + i + j + k)
    ensures a + b + c + d + e + f + g + h + i + j + k == a + (b + (c + d + e + f)) + g + h + i + (j + k)
  {
  }

  lemma TrailerStarts(x: nat)
    ensures Trailer(x) ==
            "trailer\n<< /Size 6 " + "" + "/Root " + Decimal(1) + Reference() + (" >>\n" + "startxref\n" + Decimal(x) + Footer())
  {
    OneDigit(1);
  }

  lemma TrailerIsBehindTable(objs: seq<string>)
    requires |objs| == 5 && |Assemble(objs)| < Pow10(10)
    ensures TrailerAt(Assemble(objs)) == Some(|Body(objs, 5)| + 129)
    ensures StartsWith(Assemble(objs), |Body(objs, 5)| + 129, Trailer(|Body(objs, 5)|))
  {
    hide Body, Entries, Trailer, XrefHead, StartsWith, XrefPosition, Pow10, TableHead;
    FindsTable(objs);
    XrefHeadLayout();
    var body, trailer := Body(objs, 5), Trailer(|Body(objs, 5)|);
    assert Assemble(objs) == (body + XrefHead() + Entries(objs, 5)) + trailer;
    EntryAt(objs, 1, 5);
    EndStarts(body + XrefHead() + Entries(objs, 5), trailer);
  }

  lemma RootFound(lines: seq<string>)
    requires |Render(Fixed(), lines)| < Pow10(10)
    ensures RootOf(Render(Fixed(), lines)) == Locate(Render(Fixed(), lines), 1)
  {
    hide Assemble, Body, Trailer, Content, Objects, Follow, Locate, TrailerAt, StartsWith, Clear, Decimal, Reference, Pow10, Footer;
    var objs := Objects(Fixed(), Content(lines));
    var out, x := Assemble(objs), |Body(objs, 5)|;
    TrailerIsBehindTable(objs);
    TrailerStarts(x);
    RootIsClear();
    Follows(out, x + 129, "trailer\n<< /Size 6 ", "", "/Root ", 1, " >>\n" + "startxref\n" + Decimal(x) + Footer());
  }

  lemma ObjectsAre(stream: string)
    ensures Objects(Fixed(), stream) == [Catalog(), Pages(), Page(), StreamObject(stream), Font()]
  {
    hide Catalog, Pages, Page, StreamObject, Font;
  }

  lemma PageFound(lines: seq<string>)
    requires |Render(Fixed(), lines)| < Pow10(10)
    ensures PageOf(Render(Fixed(), lines)) == Locate(Render(Fixed(), lines), 3)
  {
    hide Render, Content, Objects, Follow, Locate, RootOf, StartsWith, Clear, Decimal, Reference, Pow10, Catalog, Pages, Page, Font;
    var out := Render(Fixed(), lines);
    ObjectsAre(Content(lines));
    RootFound(lines);
    RenderedFileIsFollowable(Fixed(), lines, 1);
    CatalogShape(END_OBJECT);
    PagesIsClear();
    Follows(out, Locate(out, 1).value, "<< /Type /Catalog ", "", "/Pages ", 2, " >>" + END_OBJECT);
    RenderedFileIsFollowable(Fixed(), lines, 2);
    PagesShape(END_OBJECT);
    KidsIsClear();
    Follows(out, Locate(out, 2).value, "<< /Type /Pages ", "", "/Kids [", 3, "] /Count 1 >>" + END_OBJECT);
  }

  lemma ContentFound(lines: seq<string>)
    requires |Render(Fixed(), lines)| < Pow10(10)
    ensures ContentOf(Render(Fixed(), lines)) == Locate(Render(Fixed(), lines), 4)
  {
    hide Render, Content, Objects, Follow, Locate, PageOf, StartsWith, Clear, Decimal, Reference, Pow10;
    hide Catalog, Pages, Page, Font, Box, Resources;
    var out := Render(Fixed(), lines);
    ObjectsAre(Content(lines));
    PageFound(lines);
    RenderedFileIsFollowable(Fixed(), lines, 3);
    PageShapes(END_OBJECT);
    ContentsIsClear();
    Follows(out, Locate(out, 3).value, "<< /Type /Page ", Box(), "/Contents ", 4,
            Resources() + "/F1 " + "5" + " 0 R" + " >> >> >>" + END_OBJECT);
  }

  lemma FontFound(lines: seq<string>)
    requires |Render(Fixed(), lines)| < Pow10(10)
    ensures var out := Render(Fixed(), lines);
            FontOf(out) == Locate(out, 5) && FontOf(out).Some? && StartsWith(out, FontOf(out).value, "<< /Type /Font ")
  {
    hide Render, Content, Objects, Follow, Locate, PageOf, StartsWith, Clear, Decimal, Reference, Pow10;
    hide Catalog, Pages, Page, Box, Resources, Between;
    var out := Render(Fixed(), lines);
    ObjectsAre(Content(lines));
    PageFound(lines);
    RenderedFileIsFollowable(Fixed(), lines, 3);
    PageShapes(END_OBJECT);
    FontIsClear();
    Follows(out, Locate(out, 3).value, "<< /Type /Page ", Box() + Between(), "/F1 ", 5, " >> >> >>" + END_OBJECT);
    RenderedFileIsFollowable(Fixed(), lines, 5);
    var rest := "/Subtype /Type1 /BaseFont /Helvetica >>" + END_OBJECT;
    assert Font() + END_OBJECT == "<< /Type /Font " + rest;
    StartsApart(out, Locate(out, 5).value, "<< /Type /Font ", rest);
  }

  lemma HeaderFound(fixed: Dictionaries, lines: seq<string>)
    ensures StartsWith(Render(fixed, lines), 0, Version())
  {
    hide Content, Objects, Trailer, Entries, XrefHead;
    var objs := Objects(fixed, Content(lines));
    HeaderFirst(objs, |objs|);
    var body := Body(objs, |objs|);
    var rest := XrefHead() + Entries(objs, |objs|) + Trailer(|body|);
    assert Assemble(objs) == body + rest;
    PrefixStarts(body, rest, 0, Version());
  }

  lemma EndFound(fixed: Dictionaries, lines: seq<string>)
    ensures var out := Render(fixed, lines); StartsWith(out, |out| - |EndMark()|, EndMark())
  {
    hide Content, Objects, Body, Entries, XrefHead, TrailerHead, Decimal, StartsWith;
    var objs := Objects(fixed, Content(lines));
    var x := |Body(objs, |objs|)|;
    var front := Body(objs, |objs|) + XrefHead() + Entries(objs, |objs|) + (TrailerHead() + "startxref\n" + Decimal(x) + "\n");
    FooterEnds();
    assert Trailer(x) == (TrailerHead() + "startxref\n" + Decimal(x) + "\n") + EndMark();
    assert Render(fixed, lines) == front + EndMark();
    EndStarts(front, EndMark());
  }

  lemma FooterEnds()
    ensures Footer() == "\n" + EndMark()
  {
  }

  lemma {:induction false} HeaderFirst(objs: seq<string>, k: nat)
    requires k <= |objs|
    ensures StartsWith(Body(objs, k), 0, Version())
    decreases k
  {
    hide ObjectLabel;
    if k > 0 {
      HeaderFirst(objs, k - 1);
      PrefixStarts(Body(objs, k - 1), ObjectLabel(k) + objs[k - 1] + "\nendobj\n", 0, Version());
    }
  }

  /** Reading the program's file from its trailer on returns every line, with line feeds for line ends. */
  lemma FileReadsBack(lines: seq<string>)
    requires |Render(Fixed(), lines)| < Pow10(10)
    ensures ReadPdf(Render(Fixed(), lines)) == Some(ReadBack(lines))
  {
    hide Render, Content, Locate, ContentOf, FontOf, StreamAt, ReadTexts, ReadBack, StartsWith, TextStart, Pow10;
    hide Version, EndMark;
    HeaderFound(Fixed(), lines);
    EndFound(Fixed(), lines);
    ContentFound(lines);
    FontFound(lines);
    StreamLengthIsRight(Fixed(), lines);
    ContentReadsBack(lines);
  }
}
