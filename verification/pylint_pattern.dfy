/**
 The pattern lintblame applies to pylint's text output,
 `(?m)^(\w):\s+(\d+),\s*(\d+):\s(.+)$`, recognised on one line. In Go's
 RE2 syntax `\w` is an ASCII letter, digit or '_', `\s` is one of tab,
 newline, form feed, carriage return and space, and `.` is anything but a
 newline.
 */
module PylintPattern {
  import opened Wrappers
  import opened Decimal
  import Seqs

  predicate IsWordChar(c: char)
  {
    ('0' <= c <= '9') || ('A' <= c <= 'Z') || ('a' <= c <= 'z') || c == '_'
  }

  predicate IsPatternSpace(c: char)
  {
    c == '\t' || c == '\n' || c == '\U{000C}' || c == '\r' || c == ' '
  }

  predicate AllPatternSpace(s: string)
  {
    forall i :: 0 <= i < |s| ==> IsPatternSpace(s[i])
  }

  /**
   The pieces of a matching line: message code, the white space after its
   ':', line number, the white space after ',', column, the one white-space
   character after the second ':', and the message.
   */
  datatype Parts = Parts(code: char, pad: string, line: string, gap: string, column: string, sep: char,
      message: string)

  /** The pieces a line matching the pattern is made of. */
  predicate ValidParts(p: Parts)
  {
    && IsWordChar(p.code)
    && |p.pad| > 0 && AllPatternSpace(p.pad) && '\n' !in p.pad
    && IsDigits(p.line)
    && AllPatternSpace(p.gap) && '\n' !in p.gap
    && IsDigits(p.column)
    && IsPatternSpace(p.sep) && p.sep != '\n'
    && |p.message| > 0 && '\n' !in p.message
  }

  /** The line the pieces spell. */
  function Render(p: Parts): string
  {
    [p.code] + ([':'] + (p.pad + (p.line + ([','] + (p.gap + (p.column + ([':'] + ([p.sep] + p.message))))))))
  }

  lemma HeadTail2(t: string)
    requires |t| >= 2
    ensures t == [t[0]] + ([t[1]] + t[2..])
  {
    assert t[1..] == [t[1]] + t[2..];
  }

  lemma HeadTailOf(c: char, t: string)
    ensures ([c] + t)[0] == c && ([c] + t)[1..] == t
  {
  }

  lemma HeadTail2Of(c: char, d: char, t: string)
    ensures |[c] + ([d] + t)| >= 2
    ensures ([c] + ([d] + t))[0] == c && ([c] + ([d] + t))[1] == d && ([c] + ([d] + t))[2..] == t
  {
    assert ([c] + ([d] + t))[2..] == ([d] + t)[1..];
  }

  /** Moving the first character of `s` in front of a split of the rest. */
  lemma ConsAppend(s: string, x: string, y: string)
    requires |s| > 0 && x + y == s[1..]
    ensures ([s[0]] + x) + y == s
  {
    assert ([s[0]] + x) + y == [s[0]] + (x + y);
    assert s == [s[0]] + s[1..];
  }

  /** Split `s` after its leading run of pattern white space. */
  function TakeSpace(s: string): (r: (string, string))
    ensures r.0 + r.1 == s
    ensures AllPatternSpace(r.0)
    ensures |r.1| == 0 || !IsPatternSpace(r.1[0])
  {
    if |s| > 0 && IsPatternSpace(s[0]) then
      var rest := TakeSpace(s[1..]);
      ConsAppend(s, rest.0, rest.1);
      ([s[0]] + rest.0, rest.1)
    else ([], s)
  }

  /** Split `s` after its leading run of decimal digits. */
  function TakeDigits(s: string): (r: (string, string))
    ensures r.0 + r.1 == s
    ensures forall k :: 0 <= k < |r.0| ==> IsDigit(r.0[k])
    ensures |r.1| == 0 || !IsDigit(r.1[0])
  {
    if |s| > 0 && IsDigit(s[0]) then
      var rest := TakeDigits(s[1..]);
      ConsAppend(s, rest.0, rest.1);
      ([s[0]] + rest.0, rest.1)
    else ([], s)
  }

  /** A white-space run followed by something else is split exactly there. */
  lemma {:induction false} TakeSpaceOf(a: string, b: string)
    requires AllPatternSpace(a)
    requires |b| > 0 && !IsPatternSpace(b[0])
    ensures TakeSpace(a + b) == (a, b)
    decreases |a|
  {
    if |a| > 0 {
      assert (a + b)[1..] == a[1..] + b;
      assert AllPatternSpace(a[1..]) by {
        assert forall k :: 0 <= k < |a[1..]| ==> a[1..][k] == a[k + 1];
      }
      TakeSpaceOf(a[1..], b);
      assert [a[0]] + a[1..] == a;
    } else {
      assert a + b == b;
    }
  }

  /** A digit run followed by a non-digit is split exactly there. */
  lemma {:induction false} TakeDigitsOf(a: string, b: string)
    requires forall k :: 0 <= k < |a| ==> IsDigit(a[k])
    requires |b| > 0 && !IsDigit(b[0])
    ensures TakeDigits(a + b) == (a, b)
    decreases |a|
  {
    if |a| > 0 {
      assert (a + b)[1..] == a[1..] + b;
      assert forall k :: 0 <= k < |a[1..]| ==> a[1..][k] == a[k + 1];
      TakeDigitsOf(a[1..], b);
      assert [a[0]] + a[1..] == a;
    } else {
      assert a + b == b;
    }
  }

  lemma SliceNoNewline(s: string, i: nat)
    requires i <= |s| && '\n' !in s
    ensures '\n' !in s[i..]
  {
    assert s == s[..i] + s[i..];
  }

  /**
   `\s+(\d+),` at the start of `t`: the white space, the digits, and what
   follows the ','.
   */
  function LinePart(t: string): (r: Option<(string, string, string)>)
    ensures r.Some? ==> |r.value.0| > 0 && AllPatternSpace(r.value.0) && IsDigits(r.value.1)
    ensures r.Some? ==> t == r.value.0 + (r.value.1 + ([','] + r.value.2))
  {
    var (pad, t2) := TakeSpace(t);
    var (line, t3) := TakeDigits(t2);
    if |pad| == 0 || |line| == 0 || |t3| == 0 || t3[0] != ',' then None
    else
      Seqs.HeadTail(t3);
      Some((pad, line, t3[1..]))
  }

  /**
   `\s*(\d+):\s(.+)` on the rest of the line: white space, the digits, the
   white-space character after ':', and the message.
   */
  function ColumnPart(t: string): (r: Option<(string, string, char, string)>)
    ensures r.Some? ==>
      AllPatternSpace(r.value.0) && IsDigits(r.value.1) && IsPatternSpace(r.value.2) && |r.value.3| > 0
    ensures r.Some? ==> t == r.value.0 + (r.value.1 + ([':'] + ([r.value.2] + r.value.3)))
  {
    var (gap, t5) := TakeSpace(t);
    var (column, t6) := TakeDigits(t5);
    if |column| == 0 || |t6| < 3 || t6[0] != ':' || !IsPatternSpace(t6[1]) then None
    else
      HeadTail2(t6);
      Some((gap, column, t6[1], t6[2..]))
  }

  /**
   Split a newline-free line into the pattern's pieces, or `None` when the
   pattern does not match it. Each run is taken whole: white space and
   digits never overlap, and neither includes ',' or ':', so the pattern
   has no other way to match.
   */
  function Decompose(s: string): (r: Option<Parts>)
    requires '\n' !in s
    ensures r.Some? ==> ValidParts(r.value) && Render(r.value) == s
  {
    if |s| < 2 || !IsWordChar(s[0]) || s[1] != ':' then None
    else
      match LinePart(s[2..])
      case None => None
      case Some((pad, line, rest)) =>
        match ColumnPart(rest)
        case None => None
        case Some((gap, column, sep, message)) =>
          HeadTail2(s);
          SliceNoNewline(s, 2);
          assert sep in rest;
          Some(Parts(s[0], pad, line, gap, column, sep, message))
  }

  lemma LinePartOf(pad: string, line: string, rest: string)
    requires |pad| > 0 && AllPatternSpace(pad) && IsDigits(line)
    ensures LinePart(pad + (line + ([','] + rest))) == Some((pad, line, rest))
  {
    var t3 := [','] + rest;
    TakeSpaceOf(pad, line + t3);
    TakeDigitsOf(line, t3);
    HeadTailOf(',', rest);
  }

  lemma ColumnPartOf(gap: string, column: string, sep: char, message: string)
    requires AllPatternSpace(gap) && IsDigits(column) && IsPatternSpace(sep) && |message| > 0
    ensures ColumnPart(gap + (column + ([':'] + ([sep] + message)))) == Some((gap, column, sep, message))
  {
    var t6 := [':'] + ([sep] + message);
    TakeSpaceOf(gap, column + t6);
    TakeDigitsOf(column, t6);
    HeadTail2Of(':', sep, message);
  }

  /**
   The capture groups Go's `FindAllStringSubmatch` reports for a matching
   line: the whole match, then code, line, column and message.
   */
  function Groups(p: Parts): (g: seq<string>)
    ensures |g| == 5
  {
    [Render(p), [p.code], p.line, p.column, p.message]
  }

  /** The groups of a newline-free line, or `None` when it does not match. */
  function RecognisePylint(s: string): (r: Option<seq<string>>)
    requires '\n' !in s
    ensures r.Some? ==>
      |r.value| == 5 && r.value[0] == s && |r.value[1]| == 1 && IsDigits(r.value[2]) && IsDigits(r.value[3])
  {
    match Decompose(s)
    case None => None
    case Some(p) => Some(Groups(p))
  }

  /** Every line built from valid pieces matches, and splits back into exactly those pieces. */
  lemma DecomposeRender(p: Parts)
    requires ValidParts(p)
    ensures '\n' !in Render(p)
    ensures Decompose(Render(p)) == Some(p)
  {
    var rest := p.gap + (p.column + ([':'] + ([p.sep] + p.message)));
    var t1 := p.pad + (p.line + ([','] + rest));
    HeadTail2Of(p.code, ':', t1);
    LinePartOf(p.pad, p.line, rest);
    ColumnPartOf(p.gap, p.column, p.sep, p.message);
    RenderNoNewline(p);
  }

  lemma RenderNoNewline(p: Parts)
    requires ValidParts(p)
    ensures '\n' !in Render(p)
  {
    var t6 := [':', p.sep] + p.message;
    assert '\n' !in t6;
    var t3 := [','] + (p.gap + (p.column + t6));
    assert '\n' !in t3;
    assert '\n' !in [p.code, ':'] + (p.pad + (p.line + t3));
    assert Render(p) == [p.code, ':'] + (p.pad + (p.line + t3));
  }

  /** Recognising a rendered line yields its pieces as capture groups. */
  lemma RecogniseRender(p: Parts)
    requires ValidParts(p)
    ensures '\n' !in Render(p)
    ensures RecognisePylint(Render(p)) == Some(Groups(p))
  {
    DecomposeRender(p);
  }

  /** The pieces of the line pylint prints for an unused import. */
  function UnusedImport(): Parts
  {
    Parts('W', " ", "12", " ", "4", ' ', "unused import")
  }

  lemma UnusedImportValid()
    ensures ValidParts(UnusedImport())
  {
    assert IsDigits("12") && IsDigits("4");
  }

  lemma UnusedImportRenders()
    ensures Render(UnusedImport()) == "W: 12, 4: unused import"
  {
  }

  /** A line pylint prints for an unused import, as lintblame sees it. */
  lemma RecogniseUnusedImport(line: string)
    requires line == "W: 12, 4: unused import"
    ensures '\n' !in line
    ensures RecognisePylint(line) == Some([line, "W", "12", "4", "unused import"])
  {
    var p := UnusedImport();
    UnusedImportValid();
    UnusedImportRenders();
    RecogniseRender(p);
    assert [p.code] == "W";
  }
}
