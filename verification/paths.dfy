/**
 Path helpers: the extension of a path (`filepath.Ext` and `path.Ext`, which agree
 on '/'-separated paths), and `filterFiles`, which picks the Python and Go files
 out of a list and makes relative paths absolute.
 */
module Paths {

  /**
   `filepath.Ext(p)`: the suffix of `p` starting at its last '.', provided no
   '/' follows that '.'; otherwise the empty string.
   */
  function Ext(p: string): (e: string)
    ensures e != "" ==> e[0] == '.' && '/' !in e && '.' !in e[1..]
    ensures e == "" ==> forall i :: 0 <= i < |p| && p[i] == '.' ==> '/' in p[i + 1..]
  {
    if |p| == 0 then ""
    else
      var c := p[|p| - 1];
      if c == '/' then ""
      else if c == '.' then "."
      else
        var e := Ext(p[..|p| - 1]);
        if e == "" then "" else e + [c]
  }

  predicate IsSuffix(e: string, p: string)
  {
    |e| <= |p| && p[|p| - |e|..] == e
  }

  /** The extension is a suffix of the path. */
  lemma {:induction false} ExtIsSuffix(p: string)
    ensures IsSuffix(Ext(p), p)
    decreases |p|
  {
    if |p| > 0 && p[|p| - 1] != '/' && p[|p| - 1] != '.' {
      var init := p[..|p| - 1];
      ExtIsSuffix(init);
      var e := Ext(init);
      if e != "" {
        assert p[|p| - |e| - 1..] == init[|init| - |e|..] + [p[|p| - 1]];
      }
    }
  }

  /** True when `s` occurs in `text` as a contiguous substring. */
  predicate Contains(text: string, s: string)
  {
    exists i :: 0 <= i <= |text| - |s| && OccursAt(text, s, i)
  }

  predicate OccursAt(text: string, s: string, i: nat)
    requires i + |s| <= |text|
  {
    text[i..i + |s|] == s
  }

  /**
   Go's `regexp.MatchString(".py|.go", e)`: the pattern is unanchored, and its
   `.` matches any one character except a newline. On an extension as `Ext`
   returns it, that is the same as "py" or "go" occurring in it.
   */
  function ExtPatternMatches(e: string): (b: bool)
    ensures |e| > 0 && e[0] == '.' && '\n' !in e ==> (b <==> Contains(e, "py") || Contains(e, "go"))
  {
    PatternContains(e);
    exists i :: 0 <= i < |e| && MatchAt(e, i)
  }

  /** The pattern matches the three characters of `e` starting at `i`. */
  predicate MatchAt(e: string, i: int)
  {
    0 <= i < |e| - 2 && e[i] != '\n' && ((e[i + 1] == 'p' && e[i + 2] == 'y') || (e[i + 1] == 'g' && e[i + 2] == 'o'))
  }

  /** A path `filterFiles` keeps: non-empty, with an extension the pattern matches. */
  predicate Keeps(p: string)
  {
    |p| > 0 && ExtPatternMatches(Ext(p))
  }

  /** `strings.HasPrefix(s, pre)`. */
  predicate HasPrefix(s: string, pre: string)
  {
    |pre| <= |s| && s[..|pre|] == pre
  }

  /**
   The path `filterFiles` emits for a kept path: an absolute path unchanged,
   a relative one joined to the working directory (`path.Join` is a parameter).
   */
  function Resolve(p: string, workingDir: string, join: (string, string) -> string): (r: string)
    ensures HasPrefix(p, "/") ==> r == p
    ensures !HasPrefix(p, "/") ==> r == join(workingDir, p)
  {
    assert HasPrefix(p, "/") <==> |p| > 0 && p[0] == '/' by {
      if |p| > 0 {
        assert p[..1] == [p[0]];
      }
    }
    if |p| > 0 && p[0] == '/' then p else join(workingDir, p)
  }

  /** Reference definition: the resolved kept paths, in input order. */
  function Kept(paths: seq<string>, workingDir: string, join: (string, string) -> string): seq<string>
  {
    if |paths| == 0 then []
    else
      var last := paths[|paths| - 1];
      Kept(paths[..|paths| - 1], workingDir, join) + (if Keeps(last) then [Resolve(last, workingDir, join)] else [])
  }

  /** `filterFiles`: one pass over the input, appending each kept, resolved path. */
  method FilterFiles(paths: seq<string>, workingDir: string, join: (string, string) -> string)
    returns (kept: seq<string>)
    ensures kept == Kept(paths, workingDir, join)
  {
    kept := [];
    var i := 0;
    while i < |paths|
      invariant i <= |paths|
      invariant kept == Kept(paths[..i], workingDir, join)
    {
      var p := paths[i];
      if |p| > 0 {
        if ExtPatternMatches(Ext(p)) {
          if !(|p| > 0 && p[0] == '/') {
            p := join(workingDir, p);
          }
          kept := kept + [p];
        }
      }
      assert paths[..i + 1][..i] == paths[..i];
      i := i + 1;
    }
    assert paths[..i] == paths;
  }

  /** Filtering distributes over concatenation, so the input order is kept. */
  lemma {:induction false} KeptAppend(a: seq<string>, b: seq<string>, workingDir: string,
                                      join: (string, string) -> string)
    ensures Kept(a + b, workingDir, join) == Kept(a, workingDir, join) + Kept(b, workingDir, join)
    decreases |b|
  {
    if |b| > 0 {
      var b' := b[..|b| - 1];
      assert (a + b)[..|a + b| - 1] == a + b';
      KeptAppend(a, b', workingDir, join);
    } else {
      assert a + b == a;
    }
  }

  /** An output path comes from a kept input, and every kept input shows up. */
  lemma {:induction false} KeptMembers(paths: seq<string>, workingDir: string,
                                       join: (string, string) -> string, x: string)
    ensures x in Kept(paths, workingDir, join) <==>
        exists i :: 0 <= i < |paths| && Keeps(paths[i]) && Resolve(paths[i], workingDir, join) == x
    decreases |paths|
  {
    if |paths| > 0 {
      var init := paths[..|paths| - 1];
      KeptMembers(init, workingDir, join, x);
      assert forall i :: 0 <= i < |init| ==> init[i] == paths[i];
    }
  }

  /** The output is never longer than the input; empty strings are always dropped. */
  lemma {:induction false} KeptLength(paths: seq<string>, workingDir: string, join: (string, string) -> string)
    ensures |Kept(paths, workingDir, join)| <= |paths|
    ensures (forall i :: 0 <= i < |paths| ==> Keeps(paths[i])) ==> |Kept(paths, workingDir, join)| == |paths|
    ensures (exists i :: 0 <= i < |paths| && paths[i] == "") ==> |Kept(paths, workingDir, join)| < |paths|
    decreases |paths|
  {
    if |paths| > 0 {
      var init := paths[..|paths| - 1];
      KeptLength(init, workingDir, join);
      assert forall i :: 0 <= i < |init| ==> init[i] == paths[i];
    }
  }

  /** Absolute paths pass through unchanged; relative ones are joined to the working directory. */
  lemma KeptSingle(p: string, workingDir: string, join: (string, string) -> string)
    ensures |p| > 0 && p[0] == '/' && Keeps(p) ==> Kept([p], workingDir, join) == [p]
    ensures !(|p| > 0 && p[0] == '/') && Keeps(p) ==> Kept([p], workingDir, join) == [join(workingDir, p)]
    ensures !Keeps(p) ==> Kept([p], workingDir, join) == []
  {
    assert [p][..0] == [];
  }

  /**
   For an extension as `Ext` returns it (starting with '.', no newline), the
   pattern matches exactly when "py" or "go" occurs in it.
   */
  lemma PatternContains(e: string)
    ensures |e| > 0 && e[0] == '.' && '\n' !in e ==>
      ((exists i :: 0 <= i < |e| && MatchAt(e, i)) <==> Contains(e, "py") || Contains(e, "go"))
  {
    if |e| > 0 && e[0] == '.' && '\n' !in e {
      if exists i :: 0 <= i < |e| && MatchAt(e, i) {
        MatchedPair(e);
      }
      if Contains(e, "py") {
        var i :| 0 <= i <= |e| - 2 && OccursAt(e, "py", i);
        PairMatches(e, i, 'p', 'y');
      }
      if Contains(e, "go") {
        var i :| 0 <= i <= |e| - 2 && OccursAt(e, "go", i);
        PairMatches(e, i, 'g', 'o');
      }
    }
  }

  /** A match of the pattern ends in an occurrence of "py" or "go". */
  lemma MatchedPair(e: string)
    requires exists i :: 0 <= i < |e| && MatchAt(e, i)
    ensures Contains(e, "py") || Contains(e, "go")
  {
    var i :| 0 <= i < |e| && MatchAt(e, i);
    PairOccurs(e, i + 1, 'p', 'y');
    PairOccurs(e, i + 1, 'g', 'o');
  }

  /** An occurrence of "py" or "go" after the leading '.' is a match of the pattern. */
  lemma PairMatches(e: string, i: nat, a: char, b: char)
    requires |e| > 0 && e[0] == '.' && '\n' !in e
    requires (a == 'p' && b == 'y') || (a == 'g' && b == 'o')
    requires i + 2 <= |e| && OccursAt(e, [a, b], i)
    ensures exists k :: 0 <= k < |e| && MatchAt(e, k)
  {
    PairOccurs(e, i, a, b);
    assert e[i - 1] in e;
    assert MatchAt(e, i - 1);
  }

  /** Two characters occur at `i` exactly when they are `e[i]` and `e[i + 1]`. */
  lemma PairOccurs(e: string, i: nat, a: char, b: char)
    requires i + 2 <= |e|
    ensures OccursAt(e, [a, b], i) <==> e[i] == a && e[i + 1] == b
  {
    assert e[i..i + 2] == [e[i], e[i + 1]];
  }

  /**
   `filterFiles` keeps exactly the non-empty newline-free paths whose extension
   contains "py" or "go": so "a.pyc" and "b.gox" pass as well as "c.py" and "d.go".
   */
  lemma KeepsIffContains(p: string)
    requires '\n' !in p
    ensures Keeps(p) <==> p != "" && (Contains(Ext(p), "py") || Contains(Ext(p), "go"))
  {
    var e := Ext(p);
    if e != "" {
      assert '\n' !in e by {
        ExtIsSuffix(p);
        assert forall k :: 0 <= k < |e| ==> e[k] == p[|p| - |e| + k];
      }
    } else {
      assert !Contains(e, "py") && !Contains(e, "go");
    }
  }

  /** Appending characters that are neither '/' nor '.' extends a non-empty extension. */
  lemma {:induction false} ExtAppend(p: string, x: string)
    requires '/' !in x && '.' !in x
    ensures Ext(p + x) == (if Ext(p) == "" then "" else Ext(p) + x)
    decreases |x|
  {
    if |x| > 0 {
      var init, c := x[..|x| - 1], x[|x| - 1];
      LastSplit(x);
      ExtAppend(p, init);
      AppendLast(p, init, c);
      ExtUnfold(p + init + [c]);
    } else {
      assert p + x == p;
    }
  }

  /** Splitting off the last character keeps '/' and '.' out of both halves. */
  lemma LastSplit(x: string)
    requires |x| > 0 && '/' !in x && '.' !in x
    ensures x == x[..|x| - 1] + [x[|x| - 1]]
    ensures '/' !in x[..|x| - 1] && '.' !in x[..|x| - 1]
    ensures x[|x| - 1] != '/' && x[|x| - 1] != '.'
  {
    assert x[|x| - 1] in x;
    assert forall k :: 0 <= k < |x| - 1 ==> x[..|x| - 1][k] == x[k];
  }

  lemma AppendLast(p: string, init: string, c: char)
    ensures p + (init + [c]) == (p + init) + [c]
    ensures (p + init + [c])[..|p + init + [c]| - 1] == p + init
    ensures forall e: string :: e + init + [c] == e + (init + [c])
  {
  }

  lemma ExtUnfold(q: string)
    requires |q| > 0 && q[|q| - 1] != '/' && q[|q| - 1] != '.'
    ensures Ext(q) == (if Ext(q[..|q| - 1]) == "" then "" else Ext(q[..|q| - 1]) + [q[|q| - 1]])
  {
  }

  /** The extension of "stem.ext" is ".ext" when ext holds neither '/' nor '.'. */
  lemma ExtOfDotted(stem: string, ext: string)
    requires '/' !in ext && '.' !in ext
    ensures Ext(stem + "." + ext) == "." + ext
  {
    ExtAppend(stem + ".", ext);
  }

  /** A path whose last component has no '.' has no extension. */
  lemma ExtOfPlainName(dir: string, name: string)
    requires '/' !in name && '.' !in name
    ensures Ext(dir + "/" + name) == ""
  {
    ExtAppend(dir + "/", name);
  }

  /**
   A suffix that starts with '.' and holds no other '.' and no '/' is the
   extension.
   */
  lemma ExtOfSuffix(p: string, ext: string)
    requires |ext| > 0 && ext[0] == '.' && '.' !in ext[1..] && '/' !in ext
    requires IsSuffix(ext, p)
    ensures Ext(p) == ext
  {
    var stem, x := p[..|p| - |ext|], ext[1..];
    assert '/' !in x by {
      assert forall k :: 0 <= k < |x| ==> x[k] == ext[k + 1];
    }
    assert ext == "." + x;
    assert p == stem + "." + x;
    ExtOfDotted(stem, x);
  }

  /** The extension is empty exactly when every '.' of the path has a '/' after it. */
  lemma ExtEmpty(p: string)
    ensures Ext(p) == "" <==> forall i :: 0 <= i < |p| && p[i] == '.' ==> '/' in p[i + 1..]
  {
    var e := Ext(p);
    if e != "" {
      ExtIsSuffix(p);
      var q := |p| - |e|;
      assert p[q] == e[0] == '.';
      assert p[q + 1..] == e[1..];
      assert '/' !in p[q + 1..] by {
        assert forall k :: 0 <= k < |e| - 1 ==> e[1..][k] == e[k + 1];
      }
    }
  }

  /** A path ending in ".ext" is kept when "py" or "go" starts `ext`, whatever follows. */
  lemma KeepsDotted(stem: string, ext: string)
    requires '/' !in ext && '.' !in ext
    requires |ext| >= 2 && (ext[..2] == "py" || ext[..2] == "go")
    ensures Keeps(stem + "." + ext)
  {
    ExtOfDotted(stem, ext);
    var e := "." + ext;
    assert e[0] != '\n' && e[1] == ext[0] && e[2] == ext[1];
    assert ext[0] == ext[..2][0] && ext[1] == ext[..2][1];
    assert MatchAt(e, 0);
  }

  /** Compiled-file and unusual extensions pass the pattern too. */
  lemma KeepsLooseExtensions(pyc: string, gox: string)
    requires pyc == "lib/a.pyc" && gox == "b.gox"
    ensures Keeps(pyc) && Keeps(gox)
  {
    KeepsDotted("lib/a", "pyc");
    assert pyc == "lib/a" + "." + "pyc";
    KeepsDotted("b", "gox");
    assert gox == "b" + "." + "gox";
  }

  /** Paths without a matching extension, and the empty path, are dropped. */
  lemma DropsOtherExtensions(empty: string, txt: string, readme: string)
    requires empty == "" && txt == "notes.txt" && readme == "py.d/README"
    ensures !Keeps(empty) && !Keeps(txt) && !Keeps(readme)
  {
    ExtOfDotted("notes", "txt");
    assert txt == "notes" + "." + "txt";
    ExtOfPlainName("py.d", "README");
    assert readme == "py.d" + "/" + "README";
  }
}
