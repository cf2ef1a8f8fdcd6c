/** The shared utilities: splitting an "ext:path" argument into path and file
    type, and printing a run-length histogram. */
module Utils {
  import opened Results
  import opened Text
  import opened Tally
  import opened Structs
  import opened Stream

  /** EXIT_SUCCESS */
  const ExitSuccess := 0

  /** find_first_of(':'): the index of the first colon, or |s| for npos. */
  function FirstColon(s: string): (k: nat)
    ensures k <= |s|
    ensures k < |s| ==> s[k] == ':'
    ensures forall j :: 0 <= j < k ==> s[j] != ':'
  {
    if s == [] || s[0] == ':' then 0 else 1 + FirstColon(s[1..])
  }

  /** The first colon of a + ":" + b, for a without colons, ends a. */
  lemma {:induction false} FirstColonAfter(a: string, b: string)
    requires ':' !in a
    ensures FirstColon(a + ":" + b) == |a|
  {
    if a != [] {
      assert (a + ":" + b)[1..] == a[1..] + ":" + b;
      FirstColonAfter(a[1..], b);
    }
  }

  /** The argument carries an explicit type: its first colon exists and sits
      at an index above 1, so a drive letter such as "C:" is not a type. */
  predicate HasTypePrefix(t: string) {
    var k := FirstColon(t);
    k < |t| && k > 1
  }

  /** Where the file name starts: just after the last '/', or 0. */
  function NameStart(p: string): (k: nat)
    ensures k <= |p|
    ensures '/' !in p[k..]
    ensures k > 0 ==> p[k - 1] == '/'
  {
    if p == [] then 0
    else if p[|p| - 1] == '/' then |p|
    else
      assert p[..|p| - 1][NameStart(p[..|p| - 1])..] + [p[|p| - 1]] == p[NameStart(p[..|p| - 1])..];
      NameStart(p[..|p| - 1])
  }

  /** The index of the last '.' in f, or |f| when there is none. */
  function LastDot(f: string): (k: nat)
    ensures k <= |f|
    ensures k < |f| ==> f[k] == '.' && '.' !in f[k + 1..]
    ensures k == |f| ==> '.' !in f
  {
    if f == [] then 0
    else if f[|f| - 1] == '.' then |f| - 1
    else
      var k := LastDot(f[..|f| - 1]);
      assert f == f[..|f| - 1] + [f[|f| - 1]];
      if k == |f| - 1 then |f|
      else
        assert f[k + 1..] == f[..|f| - 1][k + 1..] + [f[|f| - 1]];
        k
  }

  /** The file name of dir + name, for a directory part that is empty or
      ends in '/', and a name without slashes, is name. */
  lemma NameStartOf(dir: string, name: string)
    requires dir == [] || dir[|dir| - 1] == '/'
    requires '/' !in name
    ensures NameStart(dir + name) == |dir|
  {
    var p := dir + name;
    assert p[|dir|..] == name;
    if dir != [] {
      assert p[|dir| - 1] == '/';
    }
  }

  /** A dot with no dot after it is the last dot. */
  lemma LastDotAt(f: string, k: nat)
    requires k < |f| && f[k] == '.' && '.' !in f[k + 1..]
    ensures LastDot(f) == k
  {
    assert f[k] in f;
  }

  /** std::filesystem::path::extension for a generic path: the file name from
      its last '.', unless the name is "." or "..", has no dot, or has its
      only leading dot in front (".profile"). */
  function Extension(p: string): (r: string)
    ensures r == [] || (r[0] == '.' && '.' !in r[1..] && '/' !in r)
    ensures r == [] || (|r| <= |p| && r == p[|p| - |r|..])
  {
    var f := p[NameStart(p)..];
    var k := LastDot(f);
    if f == "." || f == ".." || k == |f| || k == 0 then []
    else
      assert f[k..][1..] == f[k + 1..];
      assert f[k..] == p[|p| - |f[k..]|..];
      f[k..]
  }

  /** extract_file_type: trim the argument, then split "ext:path" into the
      path and the type "." + ext, or keep the whole text as the path and
      take the type from its extension. */
  function ExtractFileType(path: string): (r: FileType)
    ensures HasTypePrefix(Trim(path)) ==>
      |r.typeExt| >= 3 && r.typeExt[0] == '.' && ':' !in r.typeExt
      && r.typeExt[1..] + ":" + r.path == Trim(path)
    ensures !HasTypePrefix(Trim(path)) ==>
      r.path == Trim(path) && r.typeExt == Extension(Trim(path))
  {
    var t := Trim(path);
    var colon := FirstColon(t);
    if colon < |t| && colon > 1 then
      assert forall j :: 0 <= j < colon ==> ("." + t[..colon])[j + 1] == t[j];
      assert ("." + t[..colon])[1..] == t[..colon];
      assert t[..colon] + [t[colon]] + t[colon + 1..] == t;
      FileType(t[colon + 1..], "." + t[..colon])
    else FileType(t, Extension(t))
  }

  /** Surrounding whitespace never matters: the argument is trimmed first. */
  lemma ExtractTrimsFirst(path: string)
    ensures ExtractFileType(Trim(path)) == ExtractFileType(path)
  {
    TrimIdempotent(path);
  }

  /** A colon at index 0 or 1 (a drive letter) is not a type prefix: the
      trimmed text stays the path. */
  lemma ColonNearStartIsPath(path: string)
    requires |Trim(path)| >= 2 && (Trim(path)[0] == ':' || Trim(path)[1] == ':')
    ensures ExtractFileType(path).path == Trim(path)
  {
    assert FirstColon(Trim(path)) <= 1;
  }

  /** An "ext:path" with no surrounding whitespace and a colon-free ext of
      two or more characters splits into path and ".ext". */
  lemma ExtractTyped(ext: string, p: string)
    requires ':' !in ext && |ext| > 1
    requires !IsSpace(ext[0]) && p != [] && !IsSpace(p[|p| - 1])
    ensures ExtractFileType(ext + ":" + p) == FileType(p, "." + ext)
  {
    var t := ext + ":" + p;
    TrimFixpoint(t);
    FirstColonAfter(ext, p);
    assert t[|ext| + 1..] == p;
    assert t[..|ext|] == ext;
  }

  /** A text with no surrounding whitespace and no type prefix is its own
      path, typed by its extension. */
  lemma ExtractUntyped(t: string)
    requires t != [] && !IsSpace(t[0]) && !IsSpace(t[|t| - 1])
    requires !HasTypePrefix(t)
    ensures ExtractFileType(t) == FileType(t, Extension(t))
  {
    TrimFixpoint(t);
  }

  /** Extension read off from the file-name start and the last dot. */
  lemma ExtensionFrom(p: string, n: nat, k: nat)
    requires n == NameStart(p) && k == LastDot(p[n..])
    requires 0 < k < |p[n..]| && |p[n..]| >= 3
    ensures Extension(p) == p[n..][k..]
  {
  }

  /** The last dot of stem.ext, for a dot-free ext, is the one before ext. */
  lemma LastDotOfName(stem: string, ext: string)
    requires '.' !in ext
    ensures LastDot(stem + ("." + ext)) == |stem|
  {
    var name := stem + ("." + ext);
    assert name[|stem| + 1..] == ext;
    LastDotAt(name, |stem|);
  }

  /** A file named stem.ext, with a non-empty stem and a non-empty,
      dot-free ext, has the extension ".ext", whatever its directory. */
  lemma ExtensionOfName(dir: string, stem: string, ext: string)
    requires dir == [] || dir[|dir| - 1] == '/'
    requires '/' !in stem && '/' !in ext && '.' !in ext
    requires stem != [] && ext != []
    ensures Extension(dir + stem + "." + ext) == "." + ext
  {
    var name := stem + ("." + ext);
    var p := dir + name;
    assert p == dir + stem + "." + ext;
    assert '/' !in name by {
      assert name == stem + ['.'] + ext;
    }
    NameStartOf(dir, name);
    assert p[|dir|..] == name;
    LastDotOfName(stem, ext);
    ExtensionFrom(p, |dir|, |stem|);
    assert name[|stem|..] == "." + ext;
  }

  /** A file name whose only dot leads it (".profile") has no extension. */
  lemma HiddenFileHasNoExtension(dir: string, name: string)
    requires dir == [] || dir[|dir| - 1] == '/'
    requires '/' !in name && '.' !in name
    ensures Extension(dir + "." + name) == ""
  {
    var f := "." + name;
    assert dir + "." + name == dir + f;
    NameStartOf(dir, f);
    assert (dir + f)[|dir|..] == f;
    assert f[1..] == name;
    LastDotAt(f, 0);
  }

  /** The rows "i,counts[i]" for the non-zero entries among the first n, in
      ascending i. */
  function NonZeroRows(counts: seq<nat>, n: nat): seq<string>
    requires n <= |counts|
  {
    if n == 0 then []
    else NonZeroRows(counts, n - 1) + (if counts[n - 1] > 0 then [Row(n - 1, counts[n - 1])] else [])
  }

  /** What write_histogram prints: "0,1" when no entry is positive (one run
      of length zero), else one row per non-zero entry. */
  function HistogramLines(counts: seq<nat>): seq<string> {
    if AllZero(counts) then [Row(0, 1)] else NonZeroRows(counts, |counts|)
  }

  /** write_histogram, printing to out. */
  method WriteHistogram(counts: seq<nat>, out: OutStream) returns (status: int)
    modifies out
    ensures out.lines == old(out.lines) + HistogramLines(counts)
    ensures status == ExitSuccess
  {
    if forall k | 0 <= k < |counts| :: counts[k] == 0 {
      out.WriteLine(Row(0, 1));
      return ExitSuccess;
    }
    var i := 0;
    while i < |counts|
      invariant 0 <= i <= |counts|
      invariant out.lines == old(out.lines) + NonZeroRows(counts, i)
    {
      if counts[i] > 0 {
        out.WriteLine(Row(i, counts[i]));
      }
      i := i + 1;
    }
    return ExitSuccess;
  }

  /** Exactly the non-zero entries among the first n have a row. */
  lemma {:induction false} NonZeroRowsExact(counts: seq<nat>, n: nat, a: nat, b: nat)
    requires n <= |counts|
    ensures Row(a, b) in NonZeroRows(counts, n) <==> a < n && counts[a] == b && b > 0
  {
    if n > 0 {
      NonZeroRowsExact(counts, n - 1, a, b);
      if counts[n - 1] > 0 && Row(a, b) == Row(n - 1, counts[n - 1]) {
        RowInjective(a, b, n - 1, counts[n - 1]);
      }
    }
  }

  /** Rows come in strictly ascending order of their index. */
  lemma {:induction false} NonZeroRowsAscending(counts: seq<nat>, n: nat, j: nat, k: nat,
                                                a: nat, b: nat, c: nat, d: nat)
    requires n <= |counts|
    requires j < k < |NonZeroRows(counts, n)|
    requires NonZeroRows(counts, n)[j] == Row(a, b) && NonZeroRows(counts, n)[k] == Row(c, d)
    ensures a < c
  {
    var prev := NonZeroRows(counts, n - 1);
    if k < |prev| {
      NonZeroRowsAscending(counts, n - 1, j, k, a, b, c, d);
    } else {
      RowInjective(c, d, n - 1, counts[n - 1]);
      assert Row(a, b) in prev;
      NonZeroRowsExact(counts, n - 1, a, b);
    }
  }

  /** With some positive entry, a row "a,b" is printed exactly when entry a
      holds b > 0; with none, the only line is "0,1". */
  lemma HistogramReadsBack(counts: seq<nat>, a: nat, b: nat)
    ensures AllZero(counts) ==> HistogramLines(counts) == ["0,1"]
    ensures !AllZero(counts) ==>
      (Row(a, b) in HistogramLines(counts) <==> a < |counts| && counts[a] == b && b > 0)
  {
    assert Row(0, 1) == "0,1";
    NonZeroRowsExact(counts, |counts|, a, b);
  }

  lemma HistogramExamples()
    ensures HistogramLines([]) == ["0,1"]
    ensures HistogramLines([0, 0]) == ["0,1"]
    ensures HistogramLines([0, 3, 0, 1]) == ["1,3", "3,1"]
  {
    assert Row(0, 1) == "0,1";
    var c: seq<nat> := [0, 3, 0, 1];
    assert !AllZero(c) by {
      assert c[1] == 3;
    }
    assert NonZeroRows(c, 1) == [];
    assert NonZeroRows(c, 2) == [Row(1, 3)];
    assert NonZeroRows(c, 3) == [Row(1, 3)];
    assert NonZeroRows(c, 4) == [Row(1, 3), Row(3, 1)];
    assert Row(1, 3) == "1,3";
    assert Row(3, 1) == "3,1";
  }
}
