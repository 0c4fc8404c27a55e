/** Splitting, joining and cleaning of slash-separated paths, as Go's strings and path packages do. */
module Paths {

  // ---------- strings.Split and strings.Join with a separator of one character ----------

  function Split(s: string, sep: char): (parts: seq<string>)
    ensures parts != []
  {
    if s == "" then [""] else
      var parts, c := Split(s[..|s|-1], sep), s[|s|-1];
      if c == sep then parts + [""] else parts[..|parts|-1] + [parts[|parts|-1] + [c]]
  }

  function Glue(parts: seq<string>, sep: char): string {
    if parts == [] then ""
    else if |parts| == 1 then parts[0]
    else Glue(parts[..|parts|-1], sep) + ([sep] + parts[|parts|-1])
  }

  predicate Free(parts: seq<string>, sep: char) {
    forall i :: 0 <= i < |parts| ==> sep !in parts[i]
  }

  /** The parts with more text at the end of the last. */
  function WithMore(parts: seq<string>, more: string): (r: seq<string>)
    requires parts != []
    ensures r != []
  {
    parts[..|parts|-1] + [parts[|parts|-1] + more]
  }

  lemma WithMoreTwice(parts: seq<string>, a: string, b: string)
    requires parts != []
    ensures WithMore(WithMore(parts, a), b) == WithMore(parts, a + b)
  {
    assert parts[|parts|-1] + a + b == parts[|parts|-1] + (a + b);
  }

  lemma SplitChar(s: string, c: char, sep: char)
    requires c != sep
    ensures Split(s + [c], sep) == WithMore(Split(s, sep), [c])
  {
    assert (s + [c])[..|s|] == s;
  }

  lemma {:induction false} SplitLonger(a: string, b: string, sep: char)
    requires sep !in b
    ensures Split(a + b, sep) == WithMore(Split(a, sep), b)
  {
    if b == "" {
      assert a + b == a;
      assert Split(a, sep)[|Split(a, sep)|-1] + b == Split(a, sep)[|Split(a, sep)|-1];
    } else {
      var n := |b| - 1;
      SplitLonger(a, b[..n], sep);
      SplitChar(a + b[..n], b[n], sep);
      WithMoreTwice(Split(a, sep), b[..n], [b[n]]);
      assert b == b[..n] + [b[n]];
      assert a + b == a + b[..n] + [b[n]];
    }
  }

  lemma SplitSnoc(a: string, b: string, sep: char)
    requires sep !in b
    ensures Split(a + ([sep] + b), sep) == Split(a, sep) + [b]
  {
    var parts := Split(a, sep);
    var c := a + [sep];
    assert c[..|c|-1] == a;
    assert Split(c, sep) == parts + [""];
    SplitLonger(c, b, sep);
    assert c + b == a + ([sep] + b);
    assert (parts + [""])[..|parts|] == parts;
    assert "" + b == b;
  }

  /** Splitting undoes joining, for parts that are free of the separator. */
  lemma {:induction false} SplitOfGlue(parts: seq<string>, sep: char)
    requires parts != [] && Free(parts, sep)
    ensures Split(Glue(parts, sep), sep) == parts
  {
    var n := |parts| - 1;
    if n == 0 {
      SplitLonger("", parts[0], sep);
      assert "" + parts[0] == parts[0];
      assert Split("", sep) == [""];
    } else {
      SplitOfGlue(parts[..n], sep);
      SplitSnoc(Glue(parts[..n], sep), parts[n], sep);
      assert parts == parts[..n] + [parts[n]];
    }
  }

  lemma {:induction false} GlueOfSplit(s: string, sep: char)
    ensures Free(Split(s, sep), sep)
    ensures Glue(Split(s, sep), sep) == s
  {
    if s != "" {
      var n := |s| - 1;
      GlueOfSplit(s[..n], sep);
      var parts := Split(s[..n], sep);
      assert s == s[..n] + [s[n]];
      if s[n] == sep {
        GlueSnoc(parts, "", sep);
      } else {
        GlueLonger(parts[..|parts|-1], parts[|parts|-1], [s[n]], sep);
        assert parts == parts[..|parts|-1] + [parts[|parts|-1]];
      }
    }
  }

  lemma GlueSnoc(parts: seq<string>, last: string, sep: char)
    requires parts != []
    ensures Glue(parts + [last], sep) == Glue(parts, sep) + ([sep] + last)
  {
    assert (parts + [last])[..|parts|] == parts;
  }

  lemma {:induction false} GlueWithout(parts: seq<string>, sep: char, c: char)
    requires c != sep && forall i :: 0 <= i < |parts| ==> c !in parts[i]
    ensures c !in Glue(parts, sep)
  {
    if |parts| > 1 {
      GlueWithout(parts[..|parts|-1], sep, c);
    }
  }

  /** What is appended to the text is appended to its last part. */
  lemma GlueLonger(parts: seq<string>, last: string, more: string, sep: char)
    ensures Glue(parts + [last], sep) + more == Glue(parts + [last + more], sep)
  {
    if parts != [] {
      GlueSnoc(parts, last, sep);
      GlueSnoc(parts, last + more, sep);
      assert Glue(parts, sep) + ([sep] + last) + more == Glue(parts, sep) + ([sep] + (last + more));
    }
  }

  /** strings.HasSuffix. */
  predicate HasSuffix(s: string, suffix: string) {
    |suffix| <= |s| && s[|s|-|suffix|..] == suffix
  }

  // ---------- path.Clean and path.Join ----------

  /** A name that can stand in a path for itself. */
  predicate Good(name: string) {
    name != "" && '/' !in name && name != "." && name != ".."
  }

  predicate AllGood(parts: seq<string>) {
    forall i :: 0 <= i < |parts| ==> Good(parts[i])
  }

  /** The elements left of `parts`: empty ones and "." go, ".." takes the element before it along. */
  function Resolve(parts: seq<string>, rooted: bool): seq<string> {
    if parts == [] then [] else Entered(Resolve(parts[..|parts|-1], rooted), parts[|parts|-1], rooted)
  }

  function Entered(out: seq<string>, p: string, rooted: bool): seq<string> {
    if p == "" || p == "." then out
    else if p != ".." then out + [p]
    else if out != [] && out[|out|-1] != ".." then out[..|out|-1]
    else if rooted then out
    else out + [".."]
  }

  function Clean(s: string): string {
    if s == "" then "." else
      var rooted := s[0] == '/';
      var out := Resolve(Split(s, '/'), rooted);
      if rooted then "/" + Glue(out, '/') else if out == [] then "." else Glue(out, '/')
  }

  function JoinPath(elems: seq<string>): string {
    if elems == [] then "" else if elems[0] == "" then JoinPath(elems[1..]) else Clean(Glue(elems, '/'))
  }

  /** strings.TrimPrefix(s, "/"). */
  function Trimmed(s: string): string {
    if s != "" && s[0] == '/' then s[1..] else s
  }

  lemma {:induction false} ResolveGood(parts: seq<string>, rooted: bool)
    requires AllGood(parts)
    ensures Resolve(parts, rooted) == parts
  {
    if parts != [] {
      var n := |parts| - 1;
      ResolveGood(parts[..n], rooted);
      assert Good(parts[n]);
      assert parts == parts[..n] + [parts[n]];
    }
  }

  lemma {:induction false} GlueStarts(parts: seq<string>, sep: char)
    requires parts != [] && parts[0] != ""
    ensures Glue(parts, sep) != "" && Glue(parts, sep)[0] == parts[0][0]
  {
    if |parts| > 1 {
      GlueStarts(parts[..|parts|-1], sep);
    }
  }

  /** A path of good names is clean, and splits into these names. */
  lemma CleanGood(parts: seq<string>)
    requires parts != [] && AllGood(parts)
    ensures Clean(Glue(parts, '/')) == Glue(parts, '/')
    ensures Trimmed(Glue(parts, '/')) == Glue(parts, '/')
    ensures Split(Glue(parts, '/'), '/') == parts
  {
    assert Good(parts[0]);
    GlueStarts(parts, '/');
    SplitOfGlue(parts, '/');
    ResolveGood(parts, false);
  }

  /** What is left has neither empty elements nor "."; ".." can only lead. */
  ghost predicate Resolved(out: seq<string>) {
    && (forall i :: 0 <= i < |out| ==> Good(out[i]) || out[i] == "..")
    && (forall i, j :: 0 <= i < j < |out| && out[j] == ".." ==> out[i] == "..")
  }

  lemma {:induction false} ResolveIsResolved(parts: seq<string>, rooted: bool)
    requires Free(parts, '/')
    ensures Resolved(Resolve(parts, rooted))
  {
    if parts != [] {
      var n := |parts| - 1;
      ResolveIsResolved(parts[..n], rooted);
      assert '/' !in parts[n];
    }
  }

  /** The elements of any cleaned path are good names, unless the first is none. */
  lemma CleanIsGood(s: string)
    ensures var parts := Split(Trimmed(Clean(s)), '/'); !Good(parts[0]) || AllGood(parts)
  {
    SplitDots();
    if s != "" {
      var rooted := s[0] == '/';
      var out := Resolve(Split(s, '/'), rooted);
      GlueOfSplit(s, '/');
      ResolveIsResolved(Split(s, '/'), rooted);
      TrimmedClean(s, rooted, out);
      if out != [] {
        ResolvedSplits(out);
      }
    }
  }

  lemma TrimmedClean(s: string, rooted: bool, out: seq<string>)
    requires s != "" && rooted == (s[0] == '/') && out == Resolve(Split(s, '/'), rooted) && Resolved(out)
    ensures Trimmed(Clean(s)) == if out != [] then Glue(out, '/') else if rooted then "" else "."
  {
    if out != [] {
      GlueStarts(out, '/');
    }
  }

  lemma ResolvedSplits(out: seq<string>)
    requires out != [] && Resolved(out)
    ensures Split(Glue(out, '/'), '/') == out && (!Good(out[0]) || AllGood(out))
  {
    SplitOfGlue(out, '/');
  }

  lemma SplitDots()
    ensures Split("", '/') == [""] && Split(".", '/') == ["."]
  {
    SplitChar("", '.', '/');
    assert "" + ['.'] == ".";
  }
}
