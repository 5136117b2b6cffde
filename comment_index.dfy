/**
 * The comment index: the help parsed from each script file, keyed by the
 * file's base name. Missing files and files without help content are
 * skipped; a second file with the same base name is an error (the
 * dictionary's `Add` throws).
 */
module CommentIndex {
  import opened Wrappers
  import opened Metadata

  type Index = map<string, CommentHelp>

  predicate Parsed(src: CommentSource) {
    src.help.Some?
  }

  /** The index after adding every parsed source in order; Failure names the first repeated key. */
  function IndexOf(sources: seq<CommentSource>): Result<Index, string> {
    if sources == [] then Success(map[])
    else
      var src := sources[|sources| - 1];
      match IndexOf(sources[..|sources| - 1])
      case Failure(key) => Failure(key)
      case Success(m) =>
        if !Parsed(src) then Success(m)
        else if src.baseName in m then Failure(src.baseName)
        else Success(m[src.baseName := src.help.value])
  }

  /** No two parsed sources share a base name. */
  ghost predicate DistinctKeys(sources: seq<CommentSource>) {
    forall i, j :: 0 <= i < j < |sources| && Parsed(sources[i]) && Parsed(sources[j]) ==>
      sources[i].baseName != sources[j].baseName
  }

  /**
   * What adding `sources` in order yields: a result exactly when the parsed
   * sources have distinct base names, mapping each such name to that
   * source's help and holding nothing else; otherwise a base name shared
   * by two parsed sources.
   */
  ghost predicate IndexFacts(sources: seq<CommentSource>, r: Result<Index, string>) {
    && (r.Success? <==> DistinctKeys(sources))
    && (r.Success? ==>
          forall k :: k in r.value <==> exists i :: 0 <= i < |sources| && Parsed(sources[i]) && sources[i].baseName == k)
    && (r.Success? ==>
          forall i :: 0 <= i < |sources| && Parsed(sources[i]) ==>
            sources[i].baseName in r.value && r.value[sources[i].baseName] == sources[i].help.value)
    && (r.Failure? ==>
          exists i, j :: 0 <= i < j < |sources| && Parsed(sources[i]) && Parsed(sources[j]) &&
            sources[i].baseName == sources[j].baseName == r.error)
  }

  /** The index is built exactly when the parsed sources have distinct base names (see `IndexFacts`). */
  lemma {:induction false} IndexOfSpec(sources: seq<CommentSource>)
    ensures IndexFacts(sources, IndexOf(sources))
    decreases |sources|
  {
    if sources != [] {
      var pre := sources[..|sources| - 1];
      var src := sources[|sources| - 1];
      IndexOfSpec(pre);
      assert sources == pre + [src];
      match IndexOf(pre)
      case Failure(_) => IndexAfterFailure(pre, src);
      case Success(m) =>
        if !Parsed(src) {
          IndexSkip(pre, src, m);
        } else if src.baseName in m {
          IndexClash(pre, src, m);
        } else {
          IndexInsert(pre, src, m);
        }
    }
  }

  lemma IndexAfterFailure(pre: seq<CommentSource>, src: CommentSource)
    requires IndexOf(pre).Failure? && IndexFacts(pre, IndexOf(pre))
    ensures IndexFacts(pre + [src], IndexOf(pre + [src]))
  {
    var sources := pre + [src];
    assert sources[..|sources| - 1] == pre;
    var key := IndexOf(pre).error;
    var i, j :| 0 <= i < j < |pre| && Parsed(pre[i]) && Parsed(pre[j]) && pre[i].baseName == pre[j].baseName == key;
    assert sources[i] == pre[i] && sources[j] == pre[j];
  }

  lemma IndexSkip(pre: seq<CommentSource>, src: CommentSource, m: Index)
    requires IndexOf(pre) == Success(m) && IndexFacts(pre, IndexOf(pre)) && !Parsed(src)
    ensures IndexFacts(pre + [src], IndexOf(pre + [src]))
  {
    var sources := pre + [src];
    assert sources[..|sources| - 1] == pre;
    assert forall i :: 0 <= i < |pre| ==> sources[i] == pre[i];
  }

  lemma IndexClash(pre: seq<CommentSource>, src: CommentSource, m: Index)
    requires IndexOf(pre) == Success(m) && IndexFacts(pre, IndexOf(pre)) && Parsed(src) && src.baseName in m
    ensures IndexFacts(pre + [src], IndexOf(pre + [src]))
  {
    var sources := pre + [src];
    var n := |pre|;
    assert sources[..|sources| - 1] == pre;
    var i :| 0 <= i < |pre| && Parsed(pre[i]) && pre[i].baseName == src.baseName;
    assert sources[i] == pre[i] && sources[n] == src;
  }

  lemma IndexInsert(pre: seq<CommentSource>, src: CommentSource, m: Index)
    requires IndexOf(pre) == Success(m) && IndexFacts(pre, IndexOf(pre)) && Parsed(src) && src.baseName !in m
    ensures IndexFacts(pre + [src], IndexOf(pre + [src]))
  {
    var sources := pre + [src];
    var n := |pre|;
    assert sources[..|sources| - 1] == pre;
    assert forall i :: 0 <= i < n ==> sources[i] == pre[i];
    assert sources[n] == src;
  }

  /** The loop that fills the dictionary, skipping unparsed sources. */
  method BuildCommentIndex(sources: seq<CommentSource>) returns (r: Result<Index, string>)
    ensures r == IndexOf(sources)
  {
    var comments: Index := map[];
    var i := 0;
    while i < |sources|
      invariant 0 <= i <= |sources|
      invariant IndexOf(sources[..i]) == Success(comments)
    {
      var src := sources[i];
      assert sources[..i + 1][..i] == sources[..i];
      if src.help.None? {
        i := i + 1;
        continue;
      }
      if src.baseName in comments {
        assert IndexOf(sources[..i + 1]) == Failure(src.baseName);
        IndexOfFailureSticks(sources, i + 1);
        return Failure(src.baseName);
      }
      comments := comments[src.baseName := src.help.value];
      i := i + 1;
    }
    assert sources[..i] == sources;
    r := Success(comments);
  }

  /** Once adding a prefix fails, adding the whole sequence fails the same way. */
  lemma {:induction false} IndexOfFailureSticks(sources: seq<CommentSource>, k: nat)
    requires k <= |sources| && IndexOf(sources[..k]).Failure?
    ensures IndexOf(sources) == IndexOf(sources[..k])
    decreases |sources| - k
  {
    if k < |sources| {
      assert sources[..k + 1][..k] == sources[..k];
      IndexOfFailureSticks(sources, k + 1);
    } else {
      assert sources[..k] == sources;
    }
  }

  /** The help for a command: its entry in the index, or an empty record. */
  function CommentFor(index: Index, commandName: string): (c: CommentHelp)
    ensures commandName in index ==> c == index[commandName]
    ensures commandName !in index ==> c == EmptyComment
  {
    if commandName in index then index[commandName] else EmptyComment
  }
}
