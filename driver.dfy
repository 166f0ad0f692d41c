/** The driver helpers of the C++ indexer (cxxrag-index/lib/main.cxx): the
    balanced partition of the file list among worker threads (Chunk), the
    split of the PATH variable (GetPath), and the framing of the printed
    JSON array.

    The environment lookup, the thread count, the clang tool runs and the
    directory search are not modelled: their results are parameters. */
module Driver {
  import opened Common

  // ---------------------------------------------------------------------
  // Chunk
  // ---------------------------------------------------------------------

  /** The length of part i when n elements are shared among size parts:
      n / size each, and one more for each of the first n % size parts. */
  function PartLength(n: nat, size: nat, i: nat): nat
    requires size > 0
  {
    n / size + (if i < n % size then 1 else 0)
  }

  /** Where part i starts: the lengths of all parts before it. */
  function PartStart(n: nat, size: nat, i: nat): nat
    requires size > 0
  {
    i * (n / size) + (if i < n % size then i else n % size)
  }

  lemma PartStartStep(n: nat, size: nat, i: nat)
    requires size > 0
    ensures PartStart(n, size, i + 1) == PartStart(n, size, i) + PartLength(n, size, i)
  {
    assert (i + 1) * (n / size) == i * (n / size) + n / size;
  }

  lemma PartStartEnd(n: nat, size: nat)
    requires size > 0
    ensures PartStart(n, size, size) == n
  {
    assert n % size < size;
    assert size * (n / size) + n % size == n;
  }

  lemma PartStartMonotonic(n: nat, size: nat, i: nat)
    requires size > 0 && i <= size
    ensures PartStart(n, size, i) <= n
  {
    PartStartEnd(n, size);
    var k := i;
    while k < size
      invariant i <= k <= size
      invariant PartStart(n, size, i) <= PartStart(n, size, k)
    {
      PartStartStep(n, size, k);
      k := k + 1;
    }
  }

  /** The parts are balanced: a later part is never longer than an earlier
      one, and never shorter by more than one element. */
  lemma PartsBalanced(n: nat, size: nat, i: nat, j: nat)
    requires size > 0 && i <= j
    ensures PartLength(n, size, j) <= PartLength(n, size, i) <= PartLength(n, size, j) + 1
  {
  }

  /** The first i parts: part k is src[PartStart(k) .. PartStart(k + 1)]. */
  function PartsUpTo<T>(src: seq<T>, size: nat, i: nat): seq<seq<T>>
    requires size > 0 && i <= size
    decreases i
  {
    if i == 0 then []
    else
      PartStartStep(|src|, size, i - 1);
      PartStartMonotonic(|src|, size, i);
      PartsUpTo(src, size, i - 1) + [src[PartStart(|src|, size, i - 1)..PartStart(|src|, size, i)]]
  }

  /** What Chunk returns: size parts, so none at all when size is 0. */
  function Parts<T>(src: seq<T>, size: nat): seq<seq<T>> {
    if size == 0 then [] else PartsUpTo(src, size, size)
  }

  /** One more part: the slice from where the parts so far end. */
  lemma PartsUpToStep<T>(src: seq<T>, size: nat, i: nat)
    requires size > 0 && i < size
    ensures PartStart(|src|, size, i + 1) == PartStart(|src|, size, i) + PartLength(|src|, size, i)
    ensures PartStart(|src|, size, i + 1) <= |src|
    ensures PartsUpTo(src, size, i + 1)
      == PartsUpTo(src, size, i) + [src[PartStart(|src|, size, i)..PartStart(|src|, size, i + 1)]]
  {
    PartStartStep(|src|, size, i);
    PartStartMonotonic(|src|, size, i + 1);
  }

  lemma {:induction false} PartsUpToLength<T>(src: seq<T>, size: nat, i: nat)
    requires size > 0 && i <= size
    ensures |PartsUpTo(src, size, i)| == i
    decreases i
  {
    if i > 0 {
      PartsUpToLength(src, size, i - 1);
      PartsUpToStep(src, size, i - 1);
    }
  }

  /** Part k is the slice between the starts of parts k and k + 1. */
  lemma {:induction false} PartsUpToPart<T>(src: seq<T>, size: nat, i: nat, k: nat)
    requires size > 0 && k < i <= size
    ensures PartStart(|src|, size, k + 1) == PartStart(|src|, size, k) + PartLength(|src|, size, k)
    ensures PartStart(|src|, size, k + 1) <= |src|
    ensures |PartsUpTo(src, size, i)| == i
    ensures PartsUpTo(src, size, i)[k] == src[PartStart(|src|, size, k)..PartStart(|src|, size, k + 1)]
    decreases i
  {
    PartsUpToLength(src, size, i);
    PartsUpToStep(src, size, i - 1);
    PartStartStep(|src|, size, k);
    PartStartMonotonic(|src|, size, k + 1);
    if k < i - 1 {
      PartsUpToPart(src, size, i - 1, k);
    }
  }

  lemma {:induction false} PartsUpToFlatten<T>(src: seq<T>, size: nat, i: nat)
    requires size > 0 && i <= size
    ensures PartStart(|src|, size, i) <= |src|
    ensures Flatten(PartsUpTo(src, size, i)) == src[..PartStart(|src|, size, i)]
    decreases i
  {
    PartStartMonotonic(|src|, size, i);
    if i > 0 {
      PartsUpToFlatten(src, size, i - 1);
      PartsUpToStep(src, size, i - 1);
      var lo, hi := PartStart(|src|, size, i - 1), PartStart(|src|, size, i);
      var ps := PartsUpTo(src, size, i - 1);
      assert Flatten(ps + [src[lo..hi]]) == Flatten(ps) + src[lo..hi] by {
        assert (ps + [src[lo..hi]])[..|ps|] == ps;
      }
      assert src[..hi] == src[..lo] + src[lo..hi];
    }
  }

  /** With at least one part, the parts are exactly size consecutive pieces
      that together are src in order, part i holding |src| / size elements
      and one more for the first |src| % size parts. */
  lemma PartsCover<T>(src: seq<T>, size: nat)
    requires size > 0
    ensures |Parts(src, size)| == size
    ensures Flatten(Parts(src, size)) == src
    ensures forall i :: 0 <= i < size ==> |Parts(src, size)[i]| == PartLength(|src|, size, i)
  {
    PartsUpToLength(src, size, size);
    PartsUpToFlatten(src, size, size);
    PartStartEnd(|src|, size);
    assert src[..|src|] == src;
    forall i | 0 <= i < size
      ensures |Parts(src, size)[i]| == PartLength(|src|, size, i)
    {
      PartsUpToPart(src, size, size, i);
      PartStartStep(|src|, size, i);
    }
  }

  /** Chunk: the result vector has size slots, and each pass of the outer
      loop fills one with the next local elements. size == 0 gives an empty
      vector without reaching the division. */
  method Chunk<T>(src: seq<T>, size: nat) returns (result: seq<seq<T>>)
    ensures result == Parts(src, size)
    ensures size == 0 ==> result == []
    ensures size > 0 ==> |result| == size && Flatten(result) == src
    ensures forall i :: 0 <= i < size ==> |result[i]| == PartLength(|src|, size, i)
  {
    result := [];
    var offset := 0;
    var i := 0;
    while i < size
      invariant 0 <= i <= size && |result| == i
      invariant size > 0 ==> offset == PartStart(|src|, size, i) && result == PartsUpTo(src, size, i)
    {
      var local := |src| / size;
      if |src| % size > i {
        local := local + 1;
      }
      PartsUpToStep(src, size, i);
      assert local == PartLength(|src|, size, i);
      var part: seq<T> := [];
      var j := 0;
      while j < local
        invariant 0 <= j <= local && part == src[offset..offset + j]
      {
        part := part + [src[offset + j]];
        j := j + 1;
      }
      result := result + [part];
      offset := offset + local;
      i := i + 1;
    }
    if size > 0 {
      PartsCover(src, size);
    }
  }

  /** As written, main hands Chunk the raw hardware_concurrency(), which is
      0 when the thread count cannot be determined: then there is no part,
      so no file of a non-empty database reaches a clang tool. */
  lemma NoWorkerIndexesNothing<T>(files: seq<T>)
    requires files != []
    ensures Parts(files, 0) == [] && Flatten(Parts(files, 0)) != files
  {
  }

  /** Corrected worker count: at least one. */
  function Workers(threads: nat): (n: nat)
    ensures n > 0
    ensures threads > 0 ==> n == threads
  {
    if threads == 0 then 1 else threads
  }

  /** The file split of main with the corrected worker count: every file of
      the database lands in exactly one part, in order. */
  method SplitFiles<T>(files: seq<T>, threads: nat) returns (fileChunks: seq<seq<T>>)
    ensures fileChunks == Parts(files, Workers(threads))
    ensures |fileChunks| == Workers(threads) && Flatten(fileChunks) == files
  {
    fileChunks := Chunk(files, Workers(threads));
  }

  // ---------------------------------------------------------------------
  // GetPath
  // ---------------------------------------------------------------------

  /** The PATH separator: ':' on Unix, ';' elsewhere. */
  function PathDelimiter(unix: bool): char {
    if unix then ':' else ';'
  }

  /** The first position of d in s, if any. */
  function IndexOf(s: string, d: char): (r: Option<nat>)
    ensures r.None? <==> d !in s
    ensures r.Some? ==> r.value < |s| && s[r.value] == d && d !in s[..r.value]
  {
    if s == [] then None
    else if s[0] == d then Some(0)
    else match IndexOf(s[1..], d)
      case None => None
      case Some(k) =>
        assert s[..k + 1] == [s[0]] + s[1..][..k];
        Some(k + 1)
  }

  /** The token one std::getline call extracts from s: the text before the
      first d, or all of s when there is none. */
  function Token(s: string, d: char): (t: string)
    ensures d !in t
  {
    match IndexOf(s, d)
    case None => s
    case Some(k) => s[..k]
  }

  /** What that call leaves in the stream: the text after the first d, or
      nothing. */
  function AfterToken(s: string, d: char): (r: string)
    requires s != []
    ensures |r| < |s|
  {
    match IndexOf(s, d)
    case None => []
    case Some(k) => s[k + 1..]
  }

  /** The tokens std::getline extracts with delimiter d: nothing from an
      empty text, an empty token between two neighbouring delimiters, and no
      empty token after a trailing delimiter. */
  function Tokens(s: string, d: char): seq<string>
    decreases |s|
  {
    if s == [] then [] else [Token(s, d)] + Tokens(AfterToken(s, d), d)
  }

  /** A getline call consumes exactly the token and, when there is one, its
      delimiter. */
  lemma TokenSplit(s: string, d: char)
    requires s != []
    ensures IndexOf(s, d).None? ==> Token(s, d) == s && AfterToken(s, d) == []
    ensures IndexOf(s, d).Some? ==> s == (Token(s, d) + [d]) + AfterToken(s, d)
  {
    if IndexOf(s, d).Some? {
      SplitAround(s, IndexOf(s, d).value);
    }
  }

  /** No token holds the delimiter. */
  lemma {:induction false} TokensHaveNoDelimiter(s: string, d: char)
    ensures forall i :: 0 <= i < |Tokens(s, d)| ==> d !in Tokens(s, d)[i]
    decreases |s|
  {
    if s != [] {
      var tail := Tokens(AfterToken(s, d), d);
      TokensHaveNoDelimiter(AfterToken(s, d), d);
      assert forall i :: 1 <= i < |Tokens(s, d)| ==> Tokens(s, d)[i] == tail[i - 1];
    }
  }

  lemma SplitAround<T>(s: seq<T>, k: nat)
    requires k < |s|
    ensures s == (s[..k] + [s[k]]) + s[k + 1..]
  {
    assert s[..k] + [s[k]] == s[..k + 1];
  }

  /** The reserve bound: at most one token more than there are delimiters. */
  lemma {:induction false} TokensBound(s: string, d: char)
    ensures |Tokens(s, d)| <= Count(s, d) + 1
    decreases |s|
  {
    if s != [] {
      var pre, rest := Token(s, d), AfterToken(s, d);
      TokensBound(rest, d);
      TokenSplit(s, d);
      if IndexOf(s, d).Some? {
        assert Count(s, d) >= 1 + Count(rest, d) by {
          CountAppend(pre + [d], rest, d);
          assert (pre + [d])[|pre|] == d;
        }
      }
    }
  }

  /** Joining the tokens with the delimiter gives back a non-empty text
      that does not end with the delimiter. */
  lemma {:induction false} TokensJoin(s: string, d: char)
    requires s != [] && s[|s| - 1] != d
    ensures Join(Tokens(s, d), [d]) == s
    decreases |s|
  {
    var pre, rest := Token(s, d), AfterToken(s, d);
    TokenSplit(s, d);
    if IndexOf(s, d).None? {
      assert Tokens(s, d) == [s];
    } else {
      assert rest != [] && rest[|rest| - 1] != d by {
        assert |s| == |pre| + 1 + |rest|;
        if rest != [] {
          assert rest[|rest| - 1] == s[|s| - 1];
        }
      }
      TokensJoin(rest, d);
      var tail := Tokens(rest, d);
      assert |tail| > 0;
      assert Join([pre] + tail, [d]) == pre + [d] + Join(tail, [d]) by {
        assert ([pre] + tail)[1..] == tail;
      }
    }
  }

  /** getline's edge cases: an empty variable names no directory, two
      neighbouring delimiters name an empty one, and a trailing delimiter
      names none. */
  lemma GetlineEdgeCases()
    ensures Tokens("", ':') == []
    ensures Tokens("a::b", ':') == ["a", "", "b"]
    ensures Tokens("a:", ':') == ["a"]
  {
    assert IndexOf("b", ':') == None;
    assert Tokens("b", ':') == ["b"] + Tokens([], ':');
    assert ":b"[1..] == "b" && ":b"[..0] == "";
    assert IndexOf(":b", ':') == Some(0);
    assert Tokens(":b", ':') == [""] + Tokens("b", ':');
    assert "a::b"[2..] == ":b" && "a::b"[..1] == "a";
    assert IndexOf("a::b", ':') == Some(1);
    assert Tokens("a::b", ':') == ["a"] + Tokens(":b", ':');
    assert "a:"[2..] == [] && "a:"[..1] == "a";
    assert IndexOf("a:", ':') == Some(1);
    assert Tokens("a:", ':') == ["a"] + Tokens([], ':');
  }

  /** The reserve count of GetPath: one more than the delimiters in s. */
  method CountTerms(s: string, d: char) returns (nTerm: nat)
    ensures nTerm == Count(s, d) + 1
  {
    nTerm := 1;
    var k := 0;
    while k < |s|
      invariant 0 <= k <= |s| && nTerm == Count(s[..k], d) + 1
    {
      assert s[..k + 1][..k] == s[..k];
      if s[k] == d {
        nTerm := nTerm + 1;
      }
      k := k + 1;
    }
    assert s[..k] == s;
  }

  /** The getline loop of GetPath: each pass takes the text up to the next
      delimiter, or the rest of the input when there is none. */
  method SplitTerms(s: string, d: char) returns (result: seq<string>)
    ensures result == Tokens(s, d)
  {
    result := [];
    var rest := s;
    assert result + Tokens(rest, d) == Tokens(s, d);
    while rest != []
      invariant result + Tokens(rest, d) == Tokens(s, d)
      decreases |rest|
    {
      var token, next := Token(rest, d), AfterToken(rest, d);
      SplitStep(result, rest, d, Tokens(s, d));
      result := result + [token];
      rest := next;
    }
    assert Tokens(rest, d) == [] && result + [] == result;
  }

  /** A pass of the getline loop keeps the tokens still to come. */
  lemma SplitStep(before: seq<string>, rest: string, d: char, all: seq<string>)
    requires rest != [] && before + Tokens(rest, d) == all
    ensures (before + [Token(rest, d)]) + Tokens(AfterToken(rest, d), d) == all
  {
    assert Tokens(rest, d) == [Token(rest, d)] + Tokens(AfterToken(rest, d), d);
  }

  /** GetPath: no PATH gives no directory; otherwise the delimiters of the
      platform (unix selects PATH_DELIM) are counted for the reserve, which
      bounds the number of directories, and the text is split the way the
      getline loop splits it. */
  method GetPath(path: Option<string>, unix: bool) returns (result: seq<string>)
    ensures path.None? ==> result == []
    ensures path.Some? ==> result == Tokens(path.value, PathDelimiter(unix))
  {
    if path.None? {
      return [];
    }
    var d := PathDelimiter(unix);
    var nTerm := CountTerms(path.value, d);
    result := SplitTerms(path.value, d);
    TokensBound(path.value, d);
    assert |result| <= nTerm;
  }

  // ---------------------------------------------------------------------
  // The printed array
  // ---------------------------------------------------------------------

  /** The standard output stream: everything written to it so far. */
  class Output {
    var written: string

    constructor ()
      ensures written == []
    {
      written := [];
    }

    method Write(s: string)
      modifies this
      ensures written == old(written) + s
    {
      written := written + s;
    }
  }

  /** The end of main: an opening bracket line, the chunk texts with ",\n"
      before every one but the first, and a closing bracket line. */
  method WriteArray(out: Output, elems: seq<string>)
    modifies out
    ensures out.written == old(out.written) + "[\n" + Join(elems, ",\n") + "\n]"
  {
    out.Write("[\n");
    ghost var start := out.written;
    var i := 0;
    while i < |elems|
      invariant 0 <= i <= |elems|
      invariant out.written == start + Join(elems[..i], ",\n")
    {
      if i != 0 {
        out.Write(",\n");
      }
      out.Write(elems[i]);
      if i == 0 {
        assert elems[..1] == [elems[0]];
      } else {
        JoinSnoc(elems[..i], elems[i], ",\n");
        assert elems[..i + 1] == elems[..i] + [elems[i]];
      }
      i := i + 1;
    }
    assert elems[..i] == elems;
    out.Write("\n]");
  }

  /** With no chunk the output is an empty array split over two lines. */
  lemma EmptyArray()
    ensures "[\n" + Join([], ",\n") + "\n]" == "[\n\n]"
  {
  }
}
