/** The code chunk of the C++ indexer (cxxrag-index/include/IndexAction.h,
    cxxrag-index/lib/IndexAction.cxx): its serialiser CodeChunk::str, the
    part of the AST visitors that prepares a chunk (the signature trim and
    the Encode calls), and the IsChildOf filter on source paths.

    The clang traversal that supplies names, texts and line numbers is not
    modelled: those values are inputs here. */
module CodeChunks {
  import opened Common
  import opened Escaping

  newtype uint32 = x: int | 0 <= x < 0x1_0000_0000

  datatype Kind = RecordKind | EnumKind | FunctionKind

  /** static_cast<int> of the enum class: declaration order from 0. */
  function KindCode(k: Kind): (n: nat)
    ensures n < 3
  {
    match k
    case RecordKind => 0
    case EnumKind => 1
    case FunctionKind => 2
  }

  /** The written kind tells the kind apart. */
  lemma KindCodeInjective(a: Kind, b: Kind)
    ensures KindCode(a) == KindCode(b) <==> a == b
  {
  }

  datatype CodeChunk = CodeChunk(
    kind: Kind,
    name: string,
    filepath: string,
    startLine: uint32,
    endLine: uint32,
    signature: string,
    comment: string,
    body: string)

  // ---------------------------------------------------------------------
  // CodeChunk::str
  // ---------------------------------------------------------------------

  /** CodeChunk::str as written: the stream insertions in source order.
      name and filepath go in as they are. */
  function Str(c: CodeChunk): string {
    Layout(c, c.name, c.filepath)
  }

  /** One `ss << ...` statement of str: a key, its value text, and the
      line end. */
  function Line(key: string, value: string, end: string): string {
    Member(key, value) + end
  }

  /** The text of str with the given name and filepath texts. */
  function Layout(c: CodeChunk, name: string, filepath: string): string {
    "\t{\n"
    + Line("kind", Decimal(KindCode(c.kind)), ",\n")
    + Line("name", "\"" + name + "\"", ",\n")
    + Line("filepath", "\"" + filepath + "\"", ",\n")
    + Line("start_line", Decimal(c.startLine as nat), ",\n")
    + Line("end_line", Decimal(c.endLine as nat), ",\n")
    + Line("signature", "\"" + c.signature + "\"", ",\n")
    + Line("comment", "\"" + c.comment + "\"", ",\n")
    + Line("body", "\"" + c.body + "\"", "\n")
    + "\t}"
  }

  /** Corrected str: name and filepath escaped like the other texts. */
  function StrFixed(c: CodeChunk): string {
    Layout(c, Escape(c.name), Escape(c.filepath))
  }

  // An independent view of the same output: a JSON object whose members
  // are written one per line, in a fixed key order.

  const FieldKeys: seq<string> :=
    ["kind", "name", "filepath", "start_line", "end_line", "signature", "comment", "body"]

  function Quoted(v: string): string {
    "\"" + v + "\""
  }

  /** The value texts of the members, in key order. */
  function Values(c: CodeChunk, name: string, filepath: string): (vs: seq<string>)
    ensures |vs| == |FieldKeys|
  {
    [Decimal(KindCode(c.kind)), Quoted(name), Quoted(filepath),
     Decimal(c.startLine as nat), Decimal(c.endLine as nat),
     Quoted(c.signature), Quoted(c.comment), Quoted(c.body)]
  }

  /** A member: the quoted key, a colon and the value text. */
  function Member(key: string, value: string): string {
    "\t\t\"" + key + "\": " + value
  }

  function Members(keys: seq<string>, values: seq<string>): (ms: seq<string>)
    requires |keys| == |values|
    ensures |ms| == |keys|
    ensures forall i :: 0 <= i < |ms| ==> ms[i] == Member(keys[i], values[i])
  {
    seq(|keys|, i requires 0 <= i < |keys| => Member(keys[i], values[i]))
  }

  /** A tab-indented object: members separated by ",\n", none trailing. */
  function ObjectText(keys: seq<string>, values: seq<string>): string
    requires |keys| == |values|
  {
    "\t{\n" + Join(Members(keys, values), ",\n") + "\n\t}"
  }

  lemma Regroup(a: string, j: string, sep: string, m: string)
    ensures (a + j + sep) + (m + sep) == a + (j + sep + m) + sep
  {
  }

  lemma RegroupLast(a: string, j: string, sep: string, m: string)
    ensures (a + j + sep) + (m + "\n") + "\t}" == a + (j + sep + m) + "\n\t}"
  {
  }

  /** Joining one more member. */
  lemma JoinStep(ms: seq<string>, k: nat)
    requires 0 < k < |ms|
    ensures Join(ms[..k + 1], ",\n") == Join(ms[..k], ",\n") + ",\n" + ms[k]
  {
    JoinSnoc(ms[..k], ms[k], ",\n");
    assert ms[..k + 1] == ms[..k] + [ms[k]];
  }

  /** Eight lines, each a member and its line end, make the object. */
  lemma EightLines(ms: seq<string>)
    requires |ms| == 8
    ensures "\t{\n" + (ms[0] + ",\n") + (ms[1] + ",\n") + (ms[2] + ",\n") + (ms[3] + ",\n")
      + (ms[4] + ",\n") + (ms[5] + ",\n") + (ms[6] + ",\n") + (ms[7] + "\n") + "\t}"
      == "\t{\n" + Join(ms, ",\n") + "\n\t}"
  {
    var a, sep := "\t{\n", ",\n";
    assert Join(ms[..1], sep) == ms[0];
    var p := a + (ms[0] + sep);
    assert p == a + Join(ms[..1], sep) + sep;
    Regroup(a, Join(ms[..1], sep), sep, ms[1]); JoinStep(ms, 1);
    p := p + (ms[1] + sep);
    assert p == a + Join(ms[..2], sep) + sep;
    Regroup(a, Join(ms[..2], sep), sep, ms[2]); JoinStep(ms, 2);
    p := p + (ms[2] + sep);
    assert p == a + Join(ms[..3], sep) + sep;
    Regroup(a, Join(ms[..3], sep), sep, ms[3]); JoinStep(ms, 3);
    p := p + (ms[3] + sep);
    assert p == a + Join(ms[..4], sep) + sep;
    Regroup(a, Join(ms[..4], sep), sep, ms[4]); JoinStep(ms, 4);
    p := p + (ms[4] + sep);
    assert p == a + Join(ms[..5], sep) + sep;
    Regroup(a, Join(ms[..5], sep), sep, ms[5]); JoinStep(ms, 5);
    p := p + (ms[5] + sep);
    assert p == a + Join(ms[..6], sep) + sep;
    Regroup(a, Join(ms[..6], sep), sep, ms[6]); JoinStep(ms, 6);
    p := p + (ms[6] + sep);
    assert p == a + Join(ms[..7], sep) + sep;
    RegroupLast(a, Join(ms[..7], sep), sep, ms[7]); JoinStep(ms, 7);
    assert ms[..8] == ms;
  }

  /** str writes the eight members in the fixed key order, kind and the
      lines as decimal numbers and the five texts between quotes. */
  lemma LayoutIsObject(c: CodeChunk, name: string, filepath: string)
    ensures Layout(c, name, filepath) == ObjectText(FieldKeys, Values(c, name, filepath))
  {
    var vs := Values(c, name, filepath);
    var ms := Members(FieldKeys, vs);
    assert ms[0] == Member("kind", vs[0]) && ms[1] == Member("name", vs[1]);
    assert ms[2] == Member("filepath", vs[2]) && ms[3] == Member("start_line", vs[3]);
    assert ms[4] == Member("end_line", vs[4]) && ms[5] == Member("signature", vs[5]);
    assert ms[6] == Member("comment", vs[6]) && ms[7] == Member("body", vs[7]);
    EightLines(ms);
  }

  /** What a JSON reader takes a quoted value to stand for: the decoded
      text between the quotes. */
  function Decoded(v: string): Option<string> {
    if |v| >= 2 && v[0] == '"' && v[|v| - 1] == '"' then Unescape(v[1..|v| - 1]) else None
  }

  lemma DecodedQuoted(t: string)
    ensures Decoded(Quoted(t)) == Unescape(t)
  {
    assert Quoted(t)[1..|Quoted(t)| - 1] == t;
  }

  /** Escaped text between quotes reads back as the text. */
  lemma QuotedEscapeReadsBack(t: string)
    ensures Decoded(Quoted(Escape(t))) == Some(t)
  {
    DecodedQuoted(Escape(t));
    UnescapeEscape(t);
  }

  /** A name holding two quotes does not read back: the first quote ends
      the string early. */
  lemma QuotedNameDoesNotUnescape()
    ensures Unescape("operator\"\"_km") == None
  {
    var tail := "\"\"_km";
    UnescapeRawQuote(tail[1..]);
    assert tail == ['"'] + tail[1..];
    UnescapeKeepsPrefix("operator", tail);
    assert "operator\"\"_km" == "operator" + tail;
  }

  /** A backslash before an "n" in unescaped text reads back as a newline:
      pre + "\\n" + post comes back as pre + "\n" + post. */
  lemma BackslashNReadsAsNewline(pre: string, post: string)
    requires forall i :: 0 <= i < |pre| ==> pre[i] != '\\' && pre[i] != '"' && pre[i] != '\n'
    requires forall i :: 0 <= i < |post| ==> post[i] != '\\' && post[i] != '"' && post[i] != '\n'
    ensures Unescape(pre + ['\\', 'n'] + post) == Some(pre + ['\n'] + post)
  {
    UnescapeKeepsPrefix(post, []);
    assert post + [] == post;
    UnescapePair('n', post);
    UnescapeKeepsPrefix(pre, ['\\', 'n'] + post);
    assert pre + ['\\', 'n'] + post == pre + (['\\', 'n'] + post);
    assert pre + ['\n'] + post == pre + (['\n'] + post);
  }

  /** A Windows path reads back with its "\n" taken for a newline. */
  lemma WindowsPathUnescapes()
    ensures Unescape("C:\\new") == Some("C:\new")
  {
    BackslashNReadsAsNewline("C:", "ew");
    assert "C:" + ['\\', 'n'] + "ew" == "C:\\new";
    assert "C:" + ['\n'] + "ew" == "C:\new";
  }

  /** As written: str prints an object whose name member, for a name
      holding quotes, ends its string early and cannot be read back. */
  lemma UnescapedNameBreaksOutput(c: CodeChunk)
    requires c.name == "operator\"\"_km"
    ensures var vs := Values(c, c.name, c.filepath);
      Str(c) == ObjectText(FieldKeys, vs) && Decoded(vs[1]) == None
  {
    LayoutIsObject(c, c.name, c.filepath);
    assert Values(c, c.name, c.filepath)[1] == Quoted(c.name);
    DecodedQuoted(c.name);
    QuotedNameDoesNotUnescape();
  }

  /** As written: str prints an object whose filepath member reads back
      as a different path, its "\n" taken for a newline. */
  lemma UnescapedPathChangesPath(c: CodeChunk)
    requires c.filepath == "C:\\new"
    ensures var vs := Values(c, c.name, c.filepath);
      Str(c) == ObjectText(FieldKeys, vs) && Decoded(vs[2]) == Some("C:\new")
  {
    LayoutIsObject(c, c.name, c.filepath);
    assert Values(c, c.name, c.filepath)[2] == Quoted(c.filepath);
    DecodedQuoted(c.filepath);
    WindowsPathUnescapes();
  }

  /** Corrected: the corrected str prints an object in which every text
      member of a prepared chunk reads back as the text it was made from. */
  lemma FixedOutputReadsBack(c: CodeChunk, signature: string, comment: string, body: string)
    requires c.signature == Escape(signature) && c.comment == Escape(comment) && c.body == Escape(body)
    ensures var vs := Values(c, Escape(c.name), Escape(c.filepath));
      && StrFixed(c) == ObjectText(FieldKeys, vs)
      && Decoded(vs[1]) == Some(c.name)
      && Decoded(vs[2]) == Some(c.filepath)
      && Decoded(vs[5]) == Some(signature)
      && Decoded(vs[6]) == Some(comment)
      && Decoded(vs[7]) == Some(body)
  {
    var vs := Values(c, Escape(c.name), Escape(c.filepath));
    LayoutIsObject(c, Escape(c.name), Escape(c.filepath));
    assert vs[1] == Quoted(Escape(c.name)) && vs[2] == Quoted(Escape(c.filepath));
    assert vs[5] == Quoted(Escape(signature)) && vs[6] == Quoted(Escape(comment));
    assert vs[7] == Quoted(Escape(body));
    QuotedEscapeReadsBack(c.name);
    QuotedEscapeReadsBack(c.filepath);
    QuotedEscapeReadsBack(signature);
    QuotedEscapeReadsBack(comment);
    QuotedEscapeReadsBack(body);
  }

  // ---------------------------------------------------------------------
  // Preparing a chunk in the visitors
  // ---------------------------------------------------------------------

  /** The characters the function signature is trimmed of. */
  const TrimSet: set<char> := {' ', '\t', '\n', '\r', '{'}

  /** find_last_not_of: the last position whose character is not in cs. */
  function FindLastNotOf(s: string, cs: set<char>): (r: Option<nat>)
    ensures r.None? <==> forall j :: 0 <= j < |s| ==> s[j] in cs
    ensures r.Some? ==>
      && r.value < |s| && s[r.value] !in cs
      && forall j :: r.value < j < |s| ==> s[j] in cs
  {
    if s == [] then None
    else if s[|s| - 1] !in cs then Some(|s| - 1)
    else FindLastNotOf(s[..|s| - 1], cs)
  }

  /** The signature after the trim: cut just after its last character not
      in TrimSet; a signature made only of such characters stays whole. */
  function Trimmed(s: string): (r: string)
    ensures r <= s
    ensures (exists j :: 0 <= j < |s| && s[j] !in TrimSet) ==>
      r != [] && r[|r| - 1] !in TrimSet && forall j :: |r| <= j < |s| ==> s[j] in TrimSet
    ensures (forall j :: 0 <= j < |s| ==> s[j] in TrimSet) ==> r == s
  {
    match FindLastNotOf(s, TrimSet)
    case None => s
    case Some(k) => s[..k + 1]
  }

  /** Trimming again changes nothing. */
  lemma TrimmedIdempotent(s: string)
    ensures Trimmed(Trimmed(s)) == Trimmed(s)
  {
    var r := Trimmed(s);
    if exists j :: 0 <= j < |s| && s[j] !in TrimSet {
      assert r[|r| - 1] !in TrimSet;
      assert FindLastNotOf(r, TrimSet) == Some(|r| - 1);
    } else {
      assert r == s;
    }
  }

  /** The trim of VisitFunctionDecl: find_last_not_of and erase, in place. */
  method TrimSignature(s: string) returns (r: string)
    ensures r == Trimmed(s)
  {
    r := s;
    var pos := FindLastNotOf(r, TrimSet);
    if pos.Some? {
      r := r[..pos.value + 1];
    }
  }

  /** The chunk a visitor pushes, from the texts clang supplied: a
      function's signature trimmed first; signature, body and the raw
      comment (empty when there is none) encoded; name and path as they
      are. */
  method PrepareChunk(kind: Kind, name: string, filepath: string, startLine: uint32, endLine: uint32,
                      signature: string, comment: Option<string>, body: string)
    returns (c: CodeChunk)
    ensures c.kind == kind && c.name == name && c.filepath == filepath
    ensures c.startLine == startLine && c.endLine == endLine
    ensures c.signature == Escape(if kind == FunctionKind then Trimmed(signature) else signature)
    ensures c.body == Escape(body)
    ensures c.comment == (if comment.Some? then Escape(comment.value) else "")
  {
    var sig := signature;
    if kind == FunctionKind {
      sig := TrimSignature(sig);
    }
    sig := Encode(sig);
    var b := Encode(body);
    var com := "";
    if comment.Some? {
      com := Encode(comment.value);
    }
    c := CodeChunk(kind, name, filepath, startLine, endLine, sig, com, b);
  }

  // ---------------------------------------------------------------------
  // IsChildOf
  // ---------------------------------------------------------------------

  /** IsChildOf on canonical absolute paths, each given as its components
      below the root ([] is the root itself) or None when canonical()
      failed: child is walked up by parent_path until it equals parent or
      reaches the root. */
  method IsChildOf(parent: Option<seq<string>>, child: Option<seq<string>>) returns (r: bool)
    ensures r <==> parent.Some? && child.Some? && parent.value <= child.value
  {
    if parent.None? {
      return false;
    }
    if child.None? {
      return false;
    }
    var p, c := parent.value, child.value;
    while p != c && c != []
      invariant c <= child.value
      invariant p <= child.value ==> p <= c
      decreases |c|
    {
      c := c[..|c| - 1];
    }
    r := p == c;
  }
}
