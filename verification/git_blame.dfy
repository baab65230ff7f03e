/**
 The `git blame` side of a target file: the blame output split into lines,
 and the author name shown next to a line.
 */
module GitBlame {
  import opened Wrappers
  import opened Text

  /**
   `TargetFile.Blame`: when `git blame` fails (`out` is `None`) there are no
   blame lines; otherwise its output split on newlines.
   */
  function Blame(out: Option<string>): (lines: seq<string>)
    ensures out.None? ==> lines == []
    ensures out.Some? ==> |lines| > 0 && Join(lines, '\n') == out.value
    ensures forall i :: 0 <= i < |lines| ==> '\n' !in lines[i]
  {
    match out
    case None => []
    case Some(s) => Split(s, '\n')
  }

  /**
   `TargetFile.BlameName`: "-" when there are no blame lines, otherwise the
   author captured from blame line `line` (1-based) with surrounding white
   space trimmed. `capture` is the first capture group of the blame-name
   pattern; the source indexes the line and the match without checking, so
   both must exist.
   */
  function BlameName(blameLines: seq<string>, line: int, capture: string -> Option<string>): (name: string)
    requires |blameLines| == 0 || (1 <= line <= |blameLines| && capture(blameLines[line - 1]).Some?)
    ensures |blameLines| == 0 ==> name == "-"
    ensures |blameLines| > 0 ==> IsTrimOf(name, capture(blameLines[line - 1]).value)
  {
    if |blameLines| == 0 then "-" else TrimSpace(capture(blameLines[line - 1]).value)
  }
}
