/**
 * `multifile_helpers.py`: sort the files named on the command line into
 * implementation files paired with their header and implementation files
 * that stand alone.
 */
module MultifileHelpers {
  import opened PyText

  /** A header file: its name ends in `.h`. */
  predicate IsHeader(f: string) {
    EndsWith(f, ".h")
  }

  /** The header a source file is paired with: every `.cpp` replaced by `.h`. */
  function HeaderOf(source: string): string {
    Replace(source, ".cpp", ".h")
  }

  /** The header files among `files`, in order. */
  function Headers(files: seq<string>): seq<string>
    decreases |files|
  {
    if files == [] then []
    else
      var f := files[|files| - 1];
      Headers(files[..|files| - 1]) + (if IsHeader(f) then [f] else [])
  }

  /** The other files among `files`, in order. */
  function Sources(files: seq<string>): seq<string>
    decreases |files|
  {
    if files == [] then []
    else
      var f := files[|files| - 1];
      Sources(files[..|files| - 1]) + (if IsHeader(f) then [] else [f])
  }

  /** The sources whose header is among `headers`, each with that header, in order. */
  function Pairs(sources: seq<string>, headers: seq<string>): seq<(string, string)>
    decreases |sources|
  {
    if sources == [] then []
    else
      var s := sources[|sources| - 1];
      Pairs(sources[..|sources| - 1], headers) + (if HeaderOf(s) in headers then [(s, HeaderOf(s))] else [])
  }

  /** The sources whose header is not among `headers`, in order. */
  function Singles(sources: seq<string>, headers: seq<string>): seq<string>
    decreases |sources|
  {
    if sources == [] then []
    else
      var s := sources[|sources| - 1];
      Singles(sources[..|sources| - 1], headers) + (if HeaderOf(s) in headers then [] else [s])
  }

  /** `pair_files`. */
  method PairFiles(files: seq<string>) returns (pairs: seq<(string, string)>, singles: seq<string>)
    ensures pairs == Pairs(Sources(files), Headers(files))
    ensures singles == Singles(Sources(files), Headers(files))
  {
    var headers := [];
    var sources := [];
    for i := 0 to |files|
      invariant headers == Headers(files[..i])
      invariant sources == Sources(files[..i])
    {
      assert files[..i + 1][..i] == files[..i];
      if EndsWith(files[i], ".h") {
        headers := headers + [files[i]];
      } else {
        sources := sources + [files[i]];
      }
    }
    assert files[..|files|] == files;

    pairs := [];
    singles := [];
    for i := 0 to |sources|
      invariant pairs == Pairs(sources[..i], headers)
      invariant singles == Singles(sources[..i], headers)
    {
      assert sources[..i + 1][..i] == sources[..i];
      var header := Replace(sources[i], ".cpp", ".h");
      if header in headers {
        pairs := pairs + [(sources[i], header)];
      } else {
        singles := singles + [sources[i]];
      }
    }
    assert sources[..|sources|] == sources;
  }

  /** The first loop splits the files: every file lands in exactly one of the two lists. */
  lemma {:induction false} SplitFiles(files: seq<string>)
    ensures multiset(Headers(files)) + multiset(Sources(files)) == multiset(files)
    ensures |Headers(files)| + |Sources(files)| == |files|
    decreases |files|
  {
    if files != [] {
      var init := files[..|files| - 1];
      var last := files[|files| - 1];
      SplitFiles(init);
      assert files == init + [last];
      assert multiset(files) == multiset(init) + multiset{last};
      if IsHeader(last) {
        assert Headers(files) == Headers(init) + [last];
        assert Sources(files) == Sources(init);
      } else {
        assert Headers(files) == Headers(init);
        assert Sources(files) == Sources(init) + [last];
      }
    }
  }

  /** The first list holds exactly the header files, the second exactly the others. */
  lemma {:induction false} SplitMembers(files: seq<string>, f: string)
    ensures f in Headers(files) <==> f in files && IsHeader(f)
    ensures f in Sources(files) <==> f in files && !IsHeader(f)
    decreases |files|
  {
    if files != [] {
      var init := files[..|files| - 1];
      var last := files[|files| - 1];
      SplitMembers(init, f);
      assert files == init + [last];
      assert f in files <==> f in init || f == last;
    }
  }

  /** The second loop places every source once, pairing it exactly when its header was given. */
  lemma {:induction false} PlaceSources(sources: seq<string>, headers: seq<string>)
    ensures |Pairs(sources, headers)| + |Singles(sources, headers)| == |sources|
    ensures forall p :: p in Pairs(sources, headers) ==>
              p.0 in sources && p.1 == HeaderOf(p.0) && p.1 in headers
    ensures forall s :: s in Singles(sources, headers) ==> s in sources && HeaderOf(s) !in headers
    ensures forall s :: s in sources && HeaderOf(s) in headers ==> (s, HeaderOf(s)) in Pairs(sources, headers)
    ensures forall s :: s in sources && HeaderOf(s) !in headers ==> s in Singles(sources, headers)
    decreases |sources|
  {
    if sources != [] {
      var init := sources[..|sources| - 1];
      PlaceSources(init, headers);
      assert sources == init + [sources[|sources| - 1]];
    }
  }

  /**
   * What `pair_files` returns: every file that is not a header appears once,
   * either paired with the header of the same name or alone, and is alone
   * exactly when that header was not given; headers themselves appear only
   * as the partner of a source.
   */
  lemma PairFilesPartition(files: seq<string>)
    ensures var pairs := Pairs(Sources(files), Headers(files));
            var singles := Singles(Sources(files), Headers(files));
      && |pairs| + |singles| + |Headers(files)| == |files|
      && (forall p :: p in pairs ==>
            p.0 in files && !IsHeader(p.0) && p.1 in files && IsHeader(p.1) && p.1 == HeaderOf(p.0))
      && (forall s :: s in singles <==> s in files && !IsHeader(s) && HeaderOf(s) !in Headers(files))
  {
    SplitFiles(files);
    PlaceSources(Sources(files), Headers(files));
    forall f | f in Sources(files) || f in Headers(files) || f in files
      ensures (f in Headers(files) <==> f in files && IsHeader(f))
      ensures (f in Sources(files) <==> f in files && !IsHeader(f))
    {
      SplitMembers(files, f);
    }
  }

  /** A file that is neither a header nor names a `.cpp` file always stands alone. */
  lemma NonCppAlone(files: seq<string>, f: string)
    requires f in files && !IsHeader(f) && !Contains(f, ".cpp")
    ensures f in Singles(Sources(files), Headers(files))
  {
    ReplaceAbsent(f, ".cpp", ".h");
    SplitMembers(files, f);
    PlaceSources(Sources(files), Headers(files));
  }
}
