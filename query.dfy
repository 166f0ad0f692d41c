/** The result assembly of the Rust query mode (src/main.rs, `query`): the
    store answers with optional lists of metadata maps and of documents, one
    inner list per query embedding; the last inner lists are zipped and
    every entry is unwrapped into a Code record of path, line and code.

    An unwrap of a missing value panics; here that is a Failure naming the
    first unwrap that fails. The embedding request, the store query and the
    pretty-printed output are not modelled. */
module Query {
  import opened Common
  import opened ChunkExtractor

  /** The JSON values a metadata map holds (serde_json::Value without
      floats, arrays and objects). */
  datatype Json = JNull | JBool(b: bool) | JInt(n: int) | JString(s: string)

  type MetaMap = map<string, Json>

  /** One result: the path text, the line and the document. */
  datatype Code = Code(path: string, line: nat, code: string)

  /** How the path is read out of its metadata value: ToStringText is
      Value::to_string (the JSON text of the value), AsStr is
      Value::as_str (the string the value holds). */
  datatype PathRead = ToStringText | AsStr

  /** The unwrap of one entry that fails. */
  datatype Item = MetaEntry | DocEntry | PathKey | PathNotString | LineKey | LineNotU64

  /** Where the assembly panics. */
  datatype Fault =
    | NoMetadatas | NoDocuments | NoMetadataList | NoDocumentList
    | Missing(index: nat, item: Item)

  const U64Limit: int := 0x1_0000_0000_0000_0000

  // ---------------------------------------------------------------------
  // serde_json's compact text of a value
  // ---------------------------------------------------------------------

  function HexDigit(d: nat): (c: char)
    requires d < 16
  {
    "0123456789abcdef"[d]
  }

  /** The escape serde_json writes for one character of a string. */
  function EscapeChar(c: char): (e: string)
    ensures |e| >= 1
    ensures |e| == 1 <==> (c != '"' && c != '\\' && c >= ' ')
    ensures |e| == 1 ==> e == [c]
  {
    if c == '"' then "\\\""
    else if c == '\\' then "\\\\"
    else if c == '\n' then "\\n"
    else if c == '\r' then "\\r"
    else if c == '\t' then "\\t"
    else if c == 8 as char then "\\b"
    else if c == 12 as char then "\\f"
    else if c < ' ' then "\\u00" + [HexDigit(c as int / 16), HexDigit(c as int % 16)]
    else [c]
  }

  /** The body of a serde_json string literal: each character escaped. */
  function JsonEscape(s: string): (r: string)
    ensures |r| >= |s|
  {
    if s == [] then [] else JsonEscape(s[..|s| - 1]) + EscapeChar(s[|s| - 1])
  }

  /** Characters serde_json writes unchanged inside a string. */
  predicate Plain(s: string) {
    forall i :: 0 <= i < |s| ==> s[i] != '"' && s[i] != '\\' && s[i] >= ' '
  }

  /** A string of plain characters is its own escape. */
  lemma {:induction false} PlainEscapesToItself(s: string)
    requires Plain(s)
    ensures JsonEscape(s) == s
  {
    if s != [] {
      PlainEscapesToItself(s[..|s| - 1]);
      assert s == s[..|s| - 1] + [s[|s| - 1]];
    }
  }

  /** Value::to_string: the compact JSON text of a value. */
  function JsonText(v: Json): (t: string)
    ensures v.JString? ==> t == "\"" + JsonEscape(v.s) + "\""
    ensures v.JInt? && v.n >= 0 ==> t == Decimal(v.n)
  {
    match v
    case JNull => "null"
    case JBool(b) => if b then "true" else "false"
    case JInt(n) => if n < 0 then "-" + Decimal(-n) else Decimal(n)
    case JString(s) => "\"" + JsonEscape(s) + "\""
  }

  /** Value::as_u64: a number in 0 .. 2^64 - 1, nothing else. */
  function AsU64(v: Json): (r: Option<nat>)
    ensures r.Some? <==> v.JInt? && 0 <= v.n < U64Limit
    ensures r.Some? ==> r.value == v.n
  {
    if v.JInt? && 0 <= v.n < U64Limit then Some(v.n) else None
  }

  /** The path text the chosen reading yields, if any. */
  function PathText(v: Json, read: PathRead): (r: Option<string>)
    ensures read == ToStringText ==> r == Some(JsonText(v))
    ensures read == AsStr ==> (r.Some? <==> v.JString?) && (r.Some? ==> r.value == v.s)
  {
    match read
    case ToStringText => Some(JsonText(v))
    case AsStr => if v.JString? then Some(v.s) else None
  }

  // ---------------------------------------------------------------------
  // Specification of one entry
  // ---------------------------------------------------------------------

  /** The first unwrap that fails on an entry, in evaluation order: the
      metadata, the document, the "path" key (and, with AsStr, its being a
      string), the "line" key, its being a u64. */
  function EntryFault(m: Option<MetaMap>, d: Option<string>, read: PathRead): Option<Item> {
    if m.None? then Some(MetaEntry)
    else if d.None? then Some(DocEntry)
    else if "path" !in m.value then Some(PathKey)
    else if PathText(m.value["path"], read).None? then Some(PathNotString)
    else if "line" !in m.value then Some(LineKey)
    else if AsU64(m.value["line"]).None? then Some(LineNotU64)
    else None
  }

  /** The record of an entry that unwraps. */
  function EntryCode(m: Option<MetaMap>, d: Option<string>, read: PathRead): Code
    requires EntryFault(m, d, read).None?
  {
    Code(PathText(m.value["path"], read).value, AsU64(m.value["line"]).value, d.value)
  }

  /** The metadata the ingester stores with a chunk. */
  function StoredMeta(m: Meta): MetaMap {
    map["path" := JString(m.path), "line" := JInt(m.line)]
  }

  function Min(a: nat, b: nat): nat {
    if a <= b then a else b
  }

  // ---------------------------------------------------------------------
  // The loop
  // ---------------------------------------------------------------------

  /** query's assembly: the last metadata list zipped with the last
      document list, in the store's order, as long as the shorter one; it
      panics when a list, an entry or a field is missing, at the first
      place it is. */
  method Assemble(metadatas: Option<seq<seq<Option<MetaMap>>>>,
                  documents: Option<seq<seq<Option<string>>>>,
                  read: PathRead)
    returns (r: Result<seq<Code>, Fault>)
    ensures metadatas.None? ==> r == Failure(NoMetadatas)
    ensures metadatas.Some? && documents.None? ==> r == Failure(NoDocuments)
    ensures metadatas.Some? && documents.Some? && metadatas.value == [] ==> r == Failure(NoMetadataList)
    ensures metadatas.Some? && documents.Some? && metadatas.value != [] && documents.value == [] ==>
      r == Failure(NoDocumentList)
    ensures metadatas.Some? && documents.Some? && metadatas.value != [] && documents.value != [] ==>
      var ms, ds := metadatas.value[|metadatas.value| - 1], documents.value[|documents.value| - 1];
      var n := Min(|ms|, |ds|);
      && (r.Success? <==> forall k :: 0 <= k < n ==> EntryFault(ms[k], ds[k], read).None?)
      && (r.Success? ==>
            && |r.value| == n
            && forall k :: 0 <= k < n ==> r.value[k] == EntryCode(ms[k], ds[k], read))
      && (r.Failure? ==>
            && r.error.Missing? && r.error.index < n
            && EntryFault(ms[r.error.index], ds[r.error.index], read) == Some(r.error.item)
            && forall k :: 0 <= k < r.error.index ==> EntryFault(ms[k], ds[k], read).None?)
  {
    if metadatas.None? {
      return Failure(NoMetadatas);
    }
    if documents.None? {
      return Failure(NoDocuments);
    }
    if |metadatas.value| == 0 {
      return Failure(NoMetadataList);
    }
    if |documents.value| == 0 {
      return Failure(NoDocumentList);
    }
    var ms := metadatas.value[|metadatas.value| - 1];
    var ds := documents.value[|documents.value| - 1];
    var n := Min(|ms|, |ds|);
    var chunks: seq<Code> := [];
    var k := 0;
    while k < n
      invariant 0 <= k <= n && |chunks| == k
      invariant forall j :: 0 <= j < k ==> EntryFault(ms[j], ds[j], read).None?
      invariant forall j :: 0 <= j < k ==> chunks[j] == EntryCode(ms[j], ds[j], read)
    {
      var entry := Unwrap(ms[k], ds[k], read);
      if entry.Failure? {
        return Failure(Missing(k, entry.error));
      }
      chunks := chunks + [entry.value];
      k := k + 1;
    }
    return Success(chunks);
  }

  /** The unwraps of one entry, in the order the closure performs them. */
  method Unwrap(meta: Option<MetaMap>, doc: Option<string>, read: PathRead) returns (r: Result<Code, Item>)
    ensures r.Failure? <==> EntryFault(meta, doc, read).Some?
    ensures r.Failure? ==> r.error == EntryFault(meta, doc, read).value
    ensures r.Success? ==> r.value == EntryCode(meta, doc, read)
  {
    if meta.None? {
      return Failure(MetaEntry);
    }
    if doc.None? {
      return Failure(DocEntry);
    }
    if "path" !in meta.value {
      return Failure(PathKey);
    }
    var path := PathText(meta.value["path"], read);
    if path.None? {
      return Failure(PathNotString);
    }
    if "line" !in meta.value {
      return Failure(LineKey);
    }
    var line := AsU64(meta.value["line"]);
    if line.None? {
      return Failure(LineNotU64);
    }
    return Success(Code(path.value, line.value, doc.value));
  }

  // ---------------------------------------------------------------------
  // What comes back for what the ingester stored
  // ---------------------------------------------------------------------

  /** As written: the path of a stored chunk comes back as JSON text, in
      quotes and escaped, and so never equals the stored path. */
  lemma StoredPathComesBackQuoted(m: Meta, doc: string)
    requires m.line < U64Limit
    ensures EntryFault(Some(StoredMeta(m)), Some(doc), ToStringText).None?
    ensures EntryCode(Some(StoredMeta(m)), Some(doc), ToStringText)
         == Code("\"" + JsonEscape(m.path) + "\"", m.line, doc)
    ensures EntryCode(Some(StoredMeta(m)), Some(doc), ToStringText).path != m.path
  {
    var p := EntryCode(Some(StoredMeta(m)), Some(doc), ToStringText).path;
    assert |p| == |JsonEscape(m.path)| + 2;
  }

  /** For a path of plain characters (no quote, no backslash, no control
      character) the text that comes back is the path wrapped in quotes:
      src/a.c comes back as "src/a.c", quotes included. */
  lemma PlainPathComesBackInQuotes(m: Meta, doc: string)
    requires m.line < U64Limit && Plain(m.path)
    ensures EntryCode(Some(StoredMeta(m)), Some(doc), ToStringText).path == "\"" + m.path + "\""
  {
    PlainEscapesToItself(m.path);
  }

  /** Corrected: reading the path with as_str gives back exactly the stored
      path and line. */
  lemma StoredMetaRoundTrip(m: Meta, doc: string)
    requires m.line < U64Limit
    ensures EntryFault(Some(StoredMeta(m)), Some(doc), AsStr).None?
    ensures EntryCode(Some(StoredMeta(m)), Some(doc), AsStr) == Code(m.path, m.line, doc)
  {
  }
}
