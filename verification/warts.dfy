/**
 Warts (one reported lint issue each) and the target file that collects
 them by line number.
 */
module Warts {
  import opened Wrappers
  import opened Decimal
  import opened Text
  import opened Paths

  /** One issue reported by a lint tool. */
  datatype Wart = Wart(reporter: string, line: int, column: int, issueCode: string, message: string)

  /**
   The conditions on which lintblame calls `log.Fatal`, which ends the
   program: a line or column number that does not parse, and a file that
   cannot be read.
   */
  datatype Fatal = BadLine(line: string) | BadColumn(column: string) | Unreadable(path: string)

  /**
   `NewWart`: the line number is parsed first, then the column; the first
   one that `strconv.ParseInt(_, 10, 0)` rejects is fatal.
   */
  function NewWart(reporter: string, line: string, column: string, issueCode: string,
      message: string): (r: Result<Wart, Fatal>)
    ensures r.Success? <==> ParseInt(line).Some? && ParseInt(column).Some?
    ensures ParseInt(line).None? ==> r == Failure(BadLine(line))
    ensures ParseInt(line).Some? && ParseInt(column).None? ==> r == Failure(BadColumn(column))
    ensures r.Success? ==>
      r.value.reporter == reporter && r.value.issueCode == issueCode && r.value.message == message
    ensures r.Success? ==> MinInt <= r.value.line <= MaxInt && MinInt <= r.value.column <= MaxInt
    ensures IsDigits(line) && IsDigits(column) && Value(line) <= MaxInt && Value(column) <= MaxInt ==>
      r.Success? && r.value.line == Value(line) && r.value.column == Value(column)
  {
    match ParseInt(line)
    case None => Failure(BadLine(line))
    case Some(l) =>
      match ParseInt(column)
      case None => Failure(BadColumn(column))
      case Some(c) => Success(Wart(reporter, l, c, issueCode, message))
  }

  /** A wart whose numbers are printed with `%d` is rebuilt exactly by `NewWart`. */
  lemma NewWartFormat(w: Wart)
    requires MinInt <= w.line <= MaxInt && MinInt <= w.column <= MaxInt
    ensures NewWart(w.reporter, FormatInt(w.line), FormatInt(w.column), w.issueCode, w.message) == Success(w)
  {
    ParseFormatInt(w.line);
    ParseFormatInt(w.column);
  }

  /**
   `Wart.String`: `"%d: [%s %s] %s"` of line, reporter, issue code and message.
   The text before the first ':' is the printed line number, and the message
   ends the string.
   */
  function WartString(w: Wart): (s: string)
    ensures s == FormatInt(w.line) + ": [" + w.reporter + " " + w.issueCode + "] " + w.message
    ensures Split(s, ':')[0] == FormatInt(w.line)
    ensures IsSuffix(w.message, s)
  {
    var head := FormatInt(w.line);
    var tail := " [" + w.reporter + " " + w.issueCode + "] " + w.message;
    var front := head + ": [" + w.reporter + " " + w.issueCode + "] ";
    var s := head + ": [" + w.reporter + " " + w.issueCode + "] " + w.message;
    assert s == head + [':'] + tail;
    SplitHead(head, tail, ':');
    assert s == front + w.message;
    assert s[|s| - |w.message|..] == w.message;
    s
  }

  /** The text before the first ':' of a rendered wart reads back as its line number. */
  lemma WartStringLine(w: Wart)
    requires MinInt <= w.line <= MaxInt
    ensures ParseInt(Split(WartString(w), ':')[0]) == Some(w.line)
  {
    ParseFormatInt(w.line);
  }

  /**
   A file under analysis: its path, its lines, the lines of `git blame` on
   it, and its warts grouped by line number.
   */
  datatype TargetFile = TargetFile(path: string, contentLines: seq<string>, blameLines: seq<string>,
      warts: map<int, seq<Wart>>)

  /** The warts filed under `line`; a line never filed has none. */
  function WartsAt(tf: TargetFile, line: int): seq<Wart>
  {
    if line in tf.warts then tf.warts[line] else []
  }

  /** Every wart is filed under its own line, and no line holds an empty list. */
  predicate WellFiled(tf: TargetFile)
  {
    forall l :: l in tf.warts ==> |tf.warts[l]| > 0 && forall i :: 0 <= i < |tf.warts[l]| ==> tf.warts[l][i].line == l
  }

  /** `AddWart`: append the wart to the list of its line, creating the list if needed. */
  function AddWart(tf: TargetFile, w: Wart): (r: TargetFile)
    ensures r.path == tf.path && r.contentLines == tf.contentLines && r.blameLines == tf.blameLines
    ensures r.warts.Keys == tf.warts.Keys + {w.line}
    ensures forall l :: WartsAt(r, l) == if l == w.line then WartsAt(tf, l) + [w] else WartsAt(tf, l)
    ensures WellFiled(tf) ==> WellFiled(r)
  {
    var existing := if w.line in tf.warts then tf.warts[w.line] else [];
    tf.(warts := tf.warts[w.line := existing + [w]])
  }

  /** The warts of `ws` on `line`, in order. */
  function OnLine(ws: seq<Wart>, line: int): seq<Wart>
  {
    if |ws| == 0 then []
    else
      var n := |ws| - 1;
      OnLine(ws[..n], line) + (if ws[n].line == line then [ws[n]] else [])
  }

  /** The number of warts filed over all lines. */
  ghost function Total(warts: map<int, seq<Wart>>): nat
    decreases |warts|
  {
    if warts.Keys == {} then 0
    else
      HasKey(warts);
      var l :| l in warts;
      assert warts.Keys - {l} < warts.Keys;
      |warts[l]| + Total(warts - {l})
  }

  /** A map either has a key or has an empty key set. */
  lemma HasKey(warts: map<int, seq<Wart>>)
    ensures (exists l :: l in warts) || warts.Keys == {}
  {
    if !exists l :: l in warts {
      assert warts.Keys == {};
    }
  }

  /** `Total` counts any one line first. */
  lemma {:induction false} TotalRemove(warts: map<int, seq<Wart>>, l: int)
    requires l in warts
    ensures Total(warts) == |warts[l]| + Total(warts - {l})
    decreases |warts|
  {
    var j :| j in warts && Total(warts) == |warts[j]| + Total(warts - {j});
    if j != l {
      assert (warts - {j}).Keys < warts.Keys;
      assert (warts - {l}).Keys < warts.Keys;
      TotalRemove(warts - {j}, l);
      TotalRemove(warts - {l}, j);
      assert warts - {j} - {l} == warts - {l} - {j};
    }
  }

  /** `AddWart` files exactly one more wart. */
  lemma AddWartTotal(tf: TargetFile, w: Wart)
    ensures Total(AddWart(tf, w).warts) == Total(tf.warts) + 1
  {
    var r := AddWart(tf, w).warts;
    TotalRemove(r, w.line);
    if w.line in tf.warts {
      TotalRemove(tf.warts, w.line);
      assert r - {w.line} == tf.warts - {w.line};
    } else {
      assert r - {w.line} == tf.warts;
    }
  }

  /** The warts `OnLine` picks are warts of `ws` on that line. */
  lemma {:induction false} OnLineMembers(ws: seq<Wart>, line: int)
    ensures forall x :: x in OnLine(ws, line) ==> x in ws && x.line == line
    decreases |ws|
  {
    if |ws| > 0 {
      var init := ws[..|ws| - 1];
      OnLineMembers(init, line);
      assert forall x :: x in init ==> x in ws;
    }
  }

  /** Add each wart in turn, as the loops over tool output do. */
  function AddWarts(tf: TargetFile, ws: seq<Wart>): (r: TargetFile)
    ensures r.path == tf.path && r.contentLines == tf.contentLines && r.blameLines == tf.blameLines
    ensures WellFiled(tf) ==> WellFiled(r)
  {
    if |ws| == 0 then tf else AddWart(AddWarts(tf, ws[..|ws| - 1]), ws[|ws| - 1])
  }

  /** After adding `ws`, each line holds its earlier warts followed by the new ones for it, in order. */
  lemma {:induction false} AddWartsAt(tf: TargetFile, ws: seq<Wart>, line: int)
    ensures WartsAt(AddWarts(tf, ws), line) == WartsAt(tf, line) + OnLine(ws, line)
    decreases |ws|
  {
    if |ws| > 0 {
      AddWartsAt(tf, ws[..|ws| - 1], line);
    }
  }

  /** Adding warts files exactly the lines that already had warts or that a new wart names. */
  lemma {:induction false} AddWartsLines(tf: TargetFile, ws: seq<Wart>, line: int)
    ensures line in AddWarts(tf, ws).warts <==> line in tf.warts || exists i :: 0 <= i < |ws| && ws[i].line == line
    decreases |ws|
  {
    if |ws| > 0 {
      var init := ws[..|ws| - 1];
      AddWartsLines(tf, init, line);
      assert forall i :: 0 <= i < |init| ==> init[i] == ws[i];
    }
  }

  /**
   `ExtEquals`: the path's extension is exactly `ext`. A '.' followed by
   neither '.' nor '/' that ends the path is its extension, and "" is the
   extension of a path whose every '.' is followed by a '/'.
   */
  function ExtEquals(tf: TargetFile, ext: string): (b: bool)
    ensures b && ext != "" ==> ext[0] == '.' && '.' !in ext[1..] && '/' !in ext && IsSuffix(ext, tf.path)
    ensures b && ext == "" ==> forall i :: 0 <= i < |tf.path| && tf.path[i] == '.' ==> '/' in tf.path[i + 1..]
    ensures |ext| > 0 && ext[0] == '.' && '.' !in ext[1..] && '/' !in ext && IsSuffix(ext, tf.path) ==> b
    ensures ext == "" && (forall i :: 0 <= i < |tf.path| && tf.path[i] == '.' ==> '/' in tf.path[i + 1..]) ==> b
  {
    ExtIsSuffix(tf.path);
    ExtEmpty(tf.path);
    if |ext| > 0 && ext[0] == '.' && '.' !in ext[1..] && '/' !in ext && IsSuffix(ext, tf.path) then
      ExtOfSuffix(tf.path, ext);
      Ext(tf.path) == ext
    else
      Ext(tf.path) == ext
  }
}
