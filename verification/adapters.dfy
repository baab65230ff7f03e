/**
 The lint adapters (`Pep8`, `PyLint`, `GoBuild`) and `NewTargetFile`, which
 reads a file, blames it and runs the three adapters in that order. Running
 the tools and matching their output is outside the model: each adapter
 receives the capture groups its pattern yields on the tool's output, one
 `seq<string>` per match with the whole match first.
 */
module Adapters {
  import opened Wrappers
  import opened Text
  import opened Decimal
  import opened Paths
  import opened Warts
  import opened GitBlame
  import opened PylintPattern

  datatype Reporter = Pep8 | Pylint | GoBuild

  /** Entries per match: the whole match and then each capture group of the tool's pattern. */
  function GroupCount(rep: Reporter): nat
  {
    match rep
    case Pep8 => 5
    case Pylint => 5
    case GoBuild => 3
  }

  predicate WellShaped(rep: Reporter, groups: seq<seq<string>>)
  {
    forall i :: 0 <= i < |groups| ==> |groups[i]| == GroupCount(rep)
  }

  /** The extension on which an adapter runs: ".py" for the Python tools, ".go" for `go build`. */
  function Target(rep: Reporter): string
  {
    if rep == GoBuild then ".go" else ".py"
  }

  /**
   How an adapter turns one match into a wart: pep8 reports line, column,
   code and message in that order; pylint puts the code first; `go build`
   has no column or code, so those are "0" and "-".
   */
  function ToWart(rep: Reporter, g: seq<string>): (r: Result<Wart, Fatal>)
    requires |g| == GroupCount(rep)
    ensures rep == Pep8 ==> r == NewWart("PEP8", g[1], g[2], g[3], g[4])
    ensures rep == Pylint ==> r == NewWart("Pylint", g[2], g[3], g[1], g[4])
    ensures rep == GoBuild ==> r == NewWart("gobuild", g[1], "0", "-", g[2])
    ensures r.Success? ==> r.value.reporter == ReporterName(rep)
    ensures rep == GoBuild && r.Success? ==> r.value.column == 0 && r.value.issueCode == "-"
  {
    match rep
    case Pep8 => NewWart("PEP8", g[1], g[2], g[3], g[4])
    case Pylint => NewWart("Pylint", g[2], g[3], g[1], g[4])
    case GoBuild =>
      assert ParseInt("0") == Some(0) by { assert IsDigits("0") && Value("0") == 0; }
      NewWart("gobuild", g[1], "0", "-", g[2])
  }

  /** The reporter name each adapter writes into its warts. */
  function ReporterName(rep: Reporter): string
  {
    match rep
    case Pep8 => "PEP8"
    case Pylint => "Pylint"
    case GoBuild => "gobuild"
  }

  /** `i` is the first match whose conversion fails. */
  predicate FirstFailure(rep: Reporter, groups: seq<seq<string>>, i: int)
    requires WellShaped(rep, groups)
  {
    && 0 <= i < |groups|
    && ToWart(rep, groups[i]).Failure?
    && forall j :: 0 <= j < i ==> ToWart(rep, groups[j]).Success?
  }

  /** The conversion of each match, in order. */
  function Conversions(rep: Reporter, groups: seq<seq<string>>): (rs: seq<Result<Wart, Fatal>>)
    requires WellShaped(rep, groups)
    ensures |rs| == |groups| && forall i :: 0 <= i < |groups| ==> rs[i] == ToWart(rep, groups[i])
  {
    seq(|groups|, i requires 0 <= i < |groups| && WellShaped(rep, groups) => ToWart(rep, groups[i]))
  }

  /**
   All the values when every result succeeds; otherwise the error of the
   first failure, as a loop that stops at its first fatal error reports.
   */
  function AllOrFirstError<T, E>(rs: seq<Result<T, E>>): (r: Result<seq<T>, E>)
    ensures r.Success? <==> forall i :: 0 <= i < |rs| ==> rs[i].Success?
    ensures r.Success? ==> |r.value| == |rs| && forall i :: 0 <= i < |rs| ==> r.value[i] == rs[i].value
    ensures r.Failure? ==>
      exists i :: 0 <= i < |rs| && rs[i].Failure? && r.error == rs[i].error
                   && forall j :: 0 <= j < i ==> rs[j].Success?
  {
    if |rs| == 0 then Success([])
    else
      var tail := rs[1..];
      assert forall i :: 1 <= i < |rs| ==> tail[i - 1] == rs[i];
      match rs[0]
      case Failure(e) => Failure(e)
      case Success(v) =>
        var rest := AllOrFirstError(tail);
        if rest.Failure? then
          assert exists i :: 0 <= i < |rs| && rs[i].Failure? && rest.error == rs[i].error
                               && forall j :: 0 <= j < i ==> rs[j].Success? by {
            var i :| 0 <= i < |tail| && tail[i].Failure? && rest.error == tail[i].error &&
                forall j :: 0 <= j < i ==> tail[j].Success?;
            assert rs[i + 1] == tail[i];
          }
          Failure(rest.error)
        else
          Success([v] + rest.value)
  }

  /**
   The warts of all matches, in order, or the fatal error of the first match
   that does not convert (the loop calls `log.Fatal` there).
   */
  function Parse(rep: Reporter, groups: seq<seq<string>>): (r: Result<seq<Wart>, Fatal>)
    requires WellShaped(rep, groups)
    ensures r.Success? <==> forall i :: 0 <= i < |groups| ==> ToWart(rep, groups[i]).Success?
    ensures r.Success? ==> |r.value| == |groups| && forall i :: 0 <= i < |groups| ==>
        r.value[i] == ToWart(rep, groups[i]).value
    ensures r.Failure? ==> exists i :: FirstFailure(rep, groups, i) && r.error == ToWart(rep, groups[i]).error
  {
    var rs := Conversions(rep, groups);
    var r := AllOrFirstError(rs);
    assert r.Failure? ==> exists i :: FirstFailure(rep, groups, i) && r.error == ToWart(rep, groups[i]).error by {
      if r.Failure? {
        var i :| 0 <= i < |rs| && rs[i].Failure? && r.error == rs[i].error &&
            forall j :: 0 <= j < i ==> rs[j].Success?;
        assert FirstFailure(rep, groups, i);
      }
    }
    r
  }

  /**
   One adapter run on a target file: nothing happens unless the path has the
   adapter's extension; then every match becomes a wart added to the file.
   */
  function Run(tf: TargetFile, rep: Reporter, groups: seq<seq<string>>): (r: Result<TargetFile, Fatal>)
    requires WellShaped(rep, groups)
    ensures Ext(tf.path) != Target(rep) ==> r == Success(tf)
    ensures Ext(tf.path) == Target(rep) ==> (r.Success? <==> Parse(rep, groups).Success?)
    ensures r.Failure? ==> r.error == Parse(rep, groups).error
    ensures r.Success? ==> r.value == AddWarts(tf, Collected(rep, tf.path, groups))
    ensures r.Success? ==>
      r.value.path == tf.path && r.value.contentLines == tf.contentLines && r.value.blameLines == tf.blameLines
    ensures r.Success? && WellFiled(tf) ==> WellFiled(r.value)
  {
    var gated := if rep == GoBuild then ExtEquals(tf, ".go") else Ext(tf.path) == ".py";
    if !gated then Success(tf)
    else
      match Parse(rep, groups)
      case Failure(e) => Failure(e)
      case Success(ws) => Success(AddWarts(tf, ws))
  }

  /** The warts an adapter contributes to a file at `path` when it does not fail. */
  function Collected(rep: Reporter, path: string, groups: seq<seq<string>>): seq<Wart>
    requires WellShaped(rep, groups)
  {
    if Ext(path) == Target(rep) && Parse(rep, groups).Success? then Parse(rep, groups).value else []
  }

  /**
   `NewTargetFile`: read the file (fatal if unreadable), split it into lines,
   blame it, then run pep8, pylint and `go build` in that order, stopping at
   the first fatal error. `content` and `blameOut` are what reading the file
   and running `git blame` produce.
   */
  function NewTargetFile(path: string, content: Option<string>, blameOut: Option<string>,
                         pep8: seq<seq<string>>, pylint: seq<seq<string>>, goBuild: seq<seq<string>>)
    : (r: Result<TargetFile, Fatal>)
    requires WellShaped(Pep8, pep8) && WellShaped(Pylint, pylint) && WellShaped(GoBuild, goBuild)
    ensures content.None? ==> r == Failure(Unreadable(path))
    ensures r.Success? ==> r.value.path == path && r.value.blameLines == Blame(blameOut)
    ensures r.Success? ==> |r.value.contentLines| > 0 && Join(r.value.contentLines, '\n') == content.value
    ensures r.Success? ==> WellFiled(r.value)
    ensures (&& content.Some?
             && (Ext(path) == ".py" ==> Parse(Pep8, pep8).Success? && Parse(Pylint, pylint).Success?)
             && (Ext(path) == ".go" ==> Parse(GoBuild, goBuild).Success?))
      ==> r.Success?
    ensures content.Some? && r.Failure? ==>
      || (Ext(path) == ".py" && Parse(Pep8, pep8).Failure? && r.error == Parse(Pep8, pep8).error)
      || (Ext(path) == ".py" && Parse(Pep8, pep8).Success? && Parse(Pylint, pylint).Failure? &&
          r.error == Parse(Pylint, pylint).error)
      || (Ext(path) == ".go" && Parse(GoBuild, goBuild).Failure? && r.error == Parse(GoBuild, goBuild).error)
  {
    match content
    case None => Failure(Unreadable(path))
    case Some(text) => RunAdapters(TargetFile(path, Split(text, '\n'), Blame(blameOut), map[]), pep8, pylint, goBuild)
  }

  /**
   The three adapters of `NewTargetFile` run in order, stopping at the first
   fatal error.
   */
  function RunAdapters(tf: TargetFile, pep8: seq<seq<string>>, pylint: seq<seq<string>>,
      goBuild: seq<seq<string>>): (r: Result<TargetFile, Fatal>)
    requires WellShaped(Pep8, pep8) && WellShaped(Pylint, pylint) && WellShaped(GoBuild, goBuild)
    ensures r.Success? ==>
      r.value.path == tf.path && r.value.contentLines == tf.contentLines && r.value.blameLines == tf.blameLines
    ensures r.Success? && WellFiled(tf) ==> WellFiled(r.value)
    ensures ((Ext(tf.path) == ".py" ==> Parse(Pep8, pep8).Success? && Parse(Pylint, pylint).Success?)
             && (Ext(tf.path) == ".go" ==> Parse(GoBuild, goBuild).Success?))
      ==> r.Success?
    ensures r.Failure? ==>
      || (Ext(tf.path) == ".py" && Parse(Pep8, pep8).Failure? && r.error == Parse(Pep8, pep8).error)
      || (Ext(tf.path) == ".py" && Parse(Pep8, pep8).Success? && Parse(Pylint, pylint).Failure? &&
          r.error == Parse(Pylint, pylint).error)
      || (Ext(tf.path) == ".go" && Parse(GoBuild, goBuild).Failure? && r.error == Parse(GoBuild, goBuild).error)
  {
    match Run(tf, Pep8, pep8)
    case Failure(e) => Failure(e)
    case Success(tf1) =>
      match Run(tf1, Pylint, pylint)
      case Failure(e) => Failure(e)
      case Success(tf2) => Run(tf2, GoBuild, goBuild)
  }

  /**
   The warts of a new target file, line by line: pep8's first, then pylint's,
   then `go build`'s, each in the order the tool reported them.
   */
  lemma NewTargetFileWarts(path: string, content: Option<string>, blameOut: Option<string>,
                           pep8: seq<seq<string>>, pylint: seq<seq<string>>, goBuild: seq<seq<string>>, line: int)
    requires WellShaped(Pep8, pep8) && WellShaped(Pylint, pylint) && WellShaped(GoBuild, goBuild)
    requires NewTargetFile(path, content, blameOut, pep8, pylint, goBuild).Success?
    ensures WartsAt(NewTargetFile(path, content, blameOut, pep8, pylint, goBuild).value, line)
      == OnLine(Collected(Pep8, path, pep8), line) + OnLine(Collected(Pylint, path, pylint), line) +
          OnLine(Collected(GoBuild, path, goBuild), line)
  {
    var tf := TargetFile(path, Split(content.value, '\n'), Blame(blameOut), map[]);
    var r1 := Run(tf, Pep8, pep8);
    assert r1.Success?;
    var r2 := Run(r1.value, Pylint, pylint);
    assert r2.Success?;
    var r3 := Run(r2.value, GoBuild, goBuild);
    assert NewTargetFile(path, content, blameOut, pep8, pylint, goBuild) == r3;
    RunWarts(tf, Pep8, pep8, line);
    RunWarts(r1.value, Pylint, pylint, line);
    RunWarts(r2.value, GoBuild, goBuild, line);
    assert WartsAt(tf, line) == [];
    var a, b, c := OnLine(Collected(Pep8, path, pep8), line), OnLine(Collected(Pylint, path, pylint), line),
        OnLine(Collected(GoBuild, path, goBuild), line);
    assert WartsAt(r1.value, line) == a;
    assert WartsAt(r2.value, line) == a + b;
  }

  /** A successful run appends the collected warts of each line after the ones already there. */
  lemma RunWarts(tf: TargetFile, rep: Reporter, groups: seq<seq<string>>, line: int)
    requires WellShaped(rep, groups)
    requires Run(tf, rep, groups).Success?
    ensures Run(tf, rep, groups).value.path == tf.path
    ensures WartsAt(Run(tf, rep, groups).value, line) == WartsAt(tf, line) +
        OnLine(Collected(rep, tf.path, groups), line)
  {
    AddWartsAt(tf, Collected(rep, tf.path, groups), line);
  }

  /** A file that is neither Python nor Go gets no warts, whatever the tools printed. */
  lemma OtherFilesAreClean(path: string, text: string, blameOut: Option<string>,
                           pep8: seq<seq<string>>, pylint: seq<seq<string>>, goBuild: seq<seq<string>>)
    requires WellShaped(Pep8, pep8) && WellShaped(Pylint, pylint) && WellShaped(GoBuild, goBuild)
    requires Ext(path) != ".py" && Ext(path) != ".go"
    ensures NewTargetFile(path, Some(text), blameOut, pep8, pylint, goBuild).Success?
    ensures NewTargetFile(path, Some(text), blameOut, pep8, pylint, goBuild).value.warts == map[]
  {
  }

  /** Every collected wart carries its adapter's name, and only files with the adapter's extension collect any. */
  lemma CollectedReporters(rep: Reporter, path: string, groups: seq<seq<string>>)
    requires WellShaped(rep, groups)
    ensures forall x :: x in Collected(rep, path, groups) ==>
        x.reporter == ReporterName(rep) && Ext(path) == Target(rep)
  {
    var c := Collected(rep, path, groups);
    forall x | x in c ensures x.reporter == ReporterName(rep) && Ext(path) == Target(rep) {
      var i :| 0 <= i < |c| && c[i] == x;
    }
  }

  /** A Go file carries only `go build` warts, and a Python file none. */
  lemma ReportersByExtension(path: string, content: Option<string>, blameOut: Option<string>,
                             pep8: seq<seq<string>>, pylint: seq<seq<string>>, goBuild: seq<seq<string>>, line: int)
    requires WellShaped(Pep8, pep8) && WellShaped(Pylint, pylint) && WellShaped(GoBuild, goBuild)
    requires NewTargetFile(path, content, blameOut, pep8, pylint, goBuild).Success?
    ensures var ws := WartsAt(NewTargetFile(path, content, blameOut, pep8, pylint, goBuild).value, line);
      forall x :: x in ws ==> x.line == line && (Ext(path) == ".go" <==> x.reporter == "gobuild")
  {
    var ws := WartsAt(NewTargetFile(path, content, blameOut, pep8, pylint, goBuild).value, line);
    NewTargetFileWarts(path, content, blameOut, pep8, pylint, goBuild, line);
    var c1 := Collected(Pep8, path, pep8);
    var c2 := Collected(Pylint, path, pylint);
    var c3 := Collected(GoBuild, path, goBuild);
    var o1, o2, o3 := OnLine(c1, line), OnLine(c2, line), OnLine(c3, line);
    assert ws == o1 + o2 + o3;
    forall x | x in ws ensures x.line == line && (Ext(path) == ".go" <==> x.reporter == "gobuild") {
      if x in o1 {
        CollectedWart(Pep8, path, pep8, line, x);
      } else if x in o2 {
        CollectedWart(Pylint, path, pylint, line, x);
      } else {
        CollectedWart(GoBuild, path, goBuild, line, x);
      }
    }
  }

  lemma CollectedWart(rep: Reporter, path: string, groups: seq<seq<string>>, line: int, x: Wart)
    requires WellShaped(rep, groups)
    requires x in OnLine(Collected(rep, path, groups), line)
    ensures x.line == line && x.reporter == ReporterName(rep) && Ext(path) == Target(rep)
  {
    OnLineMembers(Collected(rep, path, groups), line);
    CollectedReporters(rep, path, groups);
  }

  /**
   A line the pylint pattern matches becomes a pylint wart whose code is the
   leading letter and whose line and column are the two numbers, as long as
   they fit in an `int`.
   */
  lemma PylintLineWart(p: Parts)
    requires ValidParts(p)
    requires Value(p.line) <= MaxInt && Value(p.column) <= MaxInt
    ensures '\n' !in Render(p)
    ensures RecognisePylint(Render(p)).Some?
    ensures ToWart(Pylint, RecognisePylint(Render(p)).value)
        == Success(Wart("Pylint", Value(p.line), Value(p.column), [p.code], p.message))
  {
    RecogniseRender(p);
  }

  /** pylint's "W: 12, 4: unused import" files a "W" wart under line 12, column 4. */
  lemma PylintUnusedImport(line: string)
    requires line == "W: 12, 4: unused import"
    ensures '\n' !in line && RecognisePylint(line).Some?
    ensures ToWart(Pylint, RecognisePylint(line).value) == Success(Wart("Pylint", 12, 4, "W", "unused import"))
  {
    RecogniseUnusedImport(line);
    var g := RecognisePylint(line).value;
    assert g[1] == "W" && g[2] == "12" && g[3] == "4" && g[4] == "unused import";
    assert ToWart(Pylint, g) == NewWart("Pylint", "12", "4", "W", "unused import");
    SmallNumbers();
  }

  lemma SmallNumbers()
    ensures IsDigits("12") && Value("12") == 12
    ensures IsDigits("4") && Value("4") == 4
  {
    assert "12"[..1] == "1";
  }
}
