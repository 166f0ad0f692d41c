/** The ingestion loop of the Rust indexer (src/main.rs, `index` and
    `add`): paths arrive one per line; each readable file with an extension
    is chunked into the pending docs/meta buffers; after each file that
    reaches the threshold check the batch is sent when it holds at least
    512 entries; a final partial batch is sent at the end. Every record sent
    is numbered by a running offset.

    The embedding service and the vector store are one gateway here: a
    store double that logs every batch it accepts and answers each call
    from a script of replies (a refusal is the fatal error that `?`
    propagates). */
module Ingest {
  import opened Common
  import opened ChunkExtractor
  import opened Language

  /** Entries the threshold check compares against. */
  const BatchThreshold: nat := 512

  /** One path read from standard input, with what the file system and the
      parser answered for it. */
  datatype Source = Source(
    path: string,
    openOk: bool,                // File::open succeeded
    statOk: bool,               // file.metadata() succeeded
    readOk: bool,               // reading the content succeeded
    content: seq<byte>,
    tree: Option<SyntaxNode>)   // the parse of content; None: could not parse

  /** What the parser guarantees: its tree fits the bytes it parsed. */
  predicate ParserContract(f: Source) {
    f.tree.Some? ==> InBounds(f.tree.value, |f.content|)
  }

  predicate AllParserContract(files: seq<Source>) {
    forall i :: 0 <= i < |files| ==> ParserContract(files[i])
  }

  /** A file either hits a `continue` (Skipped), or reaches the threshold
      check having contributed these entries. */
  datatype Outcome = Skipped | Processed(docs: seq<seq<byte>>, meta: seq<Meta>) {
    function AddedDocs(): seq<seq<byte>> {
      if Skipped? then [] else docs
    }
    function AddedMetas(): seq<Meta> {
      if Skipped? then [] else meta
    }
  }

  /** One stored record: its id, its metadata and its document. The
      embedding is left out. */
  datatype Record = Record(id: string, meta: Meta, doc: seq<byte>)

  datatype Fatal = GatewayFailed

  // ---------------------------------------------------------------------
  // Specification of one file and of the whole run
  // ---------------------------------------------------------------------

  /** The effect of one loop iteration on the pending buffers, in the order
      the source tests things: open, metadata, extension, language, read,
      parse. A file of unknown language is read and then contributes
      nothing. */
  function Process(f: Source): (r: Outcome)
    requires ParserContract(f)
    ensures !f.openOk || !f.statOk || Extension(f.path).None? ==> r.Skipped?
    ensures r.Processed? ==> |r.docs| == |r.meta| && Extension(f.path).Some? && f.readOk
    ensures r.Processed? && LanguageFor(Extension(f.path).value).None? ==> r.docs == [] && r.meta == []
  {
    if !f.openOk || !f.statOk then Skipped
    else
      match Extension(f.path)
      case None => Skipped
      case Some(ext) =>
        if LanguageFor(ext).Some? then
          if !f.readOk || f.tree.None? then Skipped
          else
            var ts := Targets(f.tree.value);
            TargetsEmittable(f.tree.value, |f.content|);
            Processed(Docs(f.content, ts), Metas(f.path, f.content, ts))
        else if !f.readOk then Skipped
        else Processed([], [])
  }

  /** Everything the processed files contribute, in input order. */
  function AllDocs(files: seq<Source>): seq<seq<byte>>
    requires AllParserContract(files)
  {
    if files == [] then [] else AllDocs(files[..|files| - 1]) + Process(files[|files| - 1]).AddedDocs()
  }

  function AllMetas(files: seq<Source>): (r: seq<Meta>)
    requires AllParserContract(files)
    ensures |r| == |AllDocs(files)|
  {
    if files == [] then [] else AllMetas(files[..|files| - 1]) + Process(files[|files| - 1]).AddedMetas()
  }

  /** The records `add` builds: ids offset, offset+1, ... in decimal, each
      paired with the metadata and document at the same position. */
  function Records(offset: nat, docs: seq<seq<byte>>, meta: seq<Meta>): (r: seq<Record>)
    requires |docs| == |meta|
    ensures |r| == |docs|
    ensures forall i :: 0 <= i < |r| ==> r[i] == Record(Decimal(offset + i), meta[i], docs[i])
  {
    seq(|docs|, i requires 0 <= i < |docs| => Record(Decimal(offset + i), meta[i], docs[i]))
  }

  /** The ids of a batch starting at offset: pairwise distinct, and each
      reads back as its own counter value. */
  lemma RecordIds(offset: nat, docs: seq<seq<byte>>, meta: seq<Meta>)
    requires |docs| == |meta|
    ensures forall i :: 0 <= i < |docs| ==> ParseDecimal(Records(offset, docs, meta)[i].id) == offset + i
    ensures forall i, j :: 0 <= i < j < |docs| ==> Records(offset, docs, meta)[i].id != Records(offset, docs, meta)[j].id
  {
    var rs := Records(offset, docs, meta);
    forall i | 0 <= i < |docs| ensures ParseDecimal(rs[i].id) == offset + i {
      ParseDecimalOfDecimal(offset + i);
    }
    forall i, j | 0 <= i < j < |docs| ensures rs[i].id != rs[j].id {
      DecimalInjective(offset + i, offset + j);
    }
  }

  lemma RecordsAppend(offset: nat, d1: seq<seq<byte>>, m1: seq<Meta>, d2: seq<seq<byte>>, m2: seq<Meta>)
    requires |d1| == |m1| && |d2| == |m2|
    ensures Records(offset, d1 + d2, m1 + m2) == Records(offset, d1, m1) + Records(offset + |d1|, d2, m2)
  {
  }

  /** The loop's state: batches sent so far, the offset, and the pending
      buffers. */
  datatype Plan = Plan(batches: seq<seq<Record>>, offset: nat, docs: seq<seq<byte>>, meta: seq<Meta>)

  /** One iteration, given what the file contributed: if it reached the
      check and the buffers then hold at least 512 entries, send them all
      and clear. */
  function Step(p: Plan, o: Outcome): Plan
    requires |p.docs| == |p.meta| && (o.Processed? ==> |o.docs| == |o.meta|)
  {
    match o
    case Skipped => p
    case Processed(d, m) =>
      var docs, meta := p.docs + d, p.meta + m;
      if |meta| >= BatchThreshold then Plan(p.batches + [Records(p.offset, docs, meta)], p.offset + |meta|, [], [])
      else Plan(p.batches, p.offset, docs, meta)
  }

  /** The state after the loop has run over files, every send accepted.
      Pending stays below the threshold between files; every batch sent
      inside the loop holds at least 512 records; the offset counts the
      records sent. */
  function Ingested(files: seq<Source>): (r: Plan)
    requires AllParserContract(files)
    ensures |r.docs| == |r.meta| < BatchThreshold
    ensures r.offset == |Flatten(r.batches)|
    ensures forall j :: 0 <= j < |r.batches| ==> |r.batches[j]| >= BatchThreshold
  {
    if files == [] then Plan([], 0, [], [])
    else Step(Ingested(files[..|files| - 1]), Process(files[|files| - 1]))
  }

  /** All batches of a run: those sent in the loop, then the pending
      entries when there are any. */
  function Batches(files: seq<Source>): (bs: seq<seq<Record>>)
    requires AllParserContract(files)
    ensures forall j :: 0 <= j < |bs| ==> |bs[j]| > 0
    ensures forall j :: 0 <= j < |bs| - 1 ==> |bs[j]| >= BatchThreshold
  {
    var p := Ingested(files);
    if |p.meta| > 0 then p.batches + [Records(p.offset, p.docs, p.meta)] else p.batches
  }

  /** Appending a file's entries to the pending buffers keeps "sent plus
      pending is every entry so far". */
  lemma AppendAccounts(p: Plan, d: seq<seq<byte>>, m: seq<Meta>, docs: seq<seq<byte>>, metas: seq<Meta>)
    requires |p.docs| == |p.meta| && |d| == |m| && |docs| == |metas|
    requires p.offset == |Flatten(p.batches)|
    requires Flatten(p.batches) + Records(p.offset, p.docs, p.meta) == Records(0, docs, metas)
    ensures Flatten(p.batches) + Records(p.offset, p.docs + d, p.meta + m) == Records(0, docs + d, metas + m)
  {
    var f, pending := Flatten(p.batches), Records(p.offset, p.docs, p.meta);
    assert |docs| == |f| + |p.docs| by {
      assert |f + pending| == |Records(0, docs, metas)|;
    }
    var more := Records(|docs|, d, m);
    RecordsAppend(0, docs, metas, d, m);
    RecordsAppend(p.offset, p.docs, p.meta, d, m);
    assert p.offset + |p.docs| == |docs|;
    AppendRegroup(f, pending, Records(0, docs, metas), more,
                  Records(p.offset, p.docs + d, p.meta + m), Records(0, docs + d, metas + m));
  }

  lemma AppendRegroup<T>(f: seq<T>, pending: seq<T>, all: seq<T>, more: seq<T>, left: seq<T>, right: seq<T>)
    requires f + pending == all && left == pending + more && right == all + more
    ensures f + left == right
  {
  }

  /** One step keeps "sent plus pending is every entry so far". */
  lemma StepAccounts(p: Plan, o: Outcome, docs: seq<seq<byte>>, metas: seq<Meta>)
    requires |p.docs| == |p.meta| && (o.Processed? ==> |o.docs| == |o.meta|) && |docs| == |metas|
    requires p.offset == |Flatten(p.batches)|
    requires Flatten(p.batches) + Records(p.offset, p.docs, p.meta) == Records(0, docs, metas)
    ensures |docs + o.AddedDocs()| == |metas + o.AddedMetas()|
    ensures var q := Step(p, o);
      Flatten(q.batches) + Records(q.offset, q.docs, q.meta)
        == Records(0, docs + o.AddedDocs(), metas + o.AddedMetas())
  {
    match o
    case Skipped =>
      assert docs + o.AddedDocs() == docs && metas + o.AddedMetas() == metas;
    case Processed(d, m) =>
      AppendAccounts(p, d, m, docs, metas);
      RecordsAppend(p.offset, p.docs, p.meta, d, m);
      if |p.meta + m| >= BatchThreshold {
        var joined := Records(p.offset, p.docs + d, p.meta + m);
        FlattenAppend(p.batches, [joined]);
        assert Flatten([joined]) == joined;
      }
  }

  /** Sent plus pending is always every entry so far, numbered from 0. */
  lemma {:induction false} IngestedAccounts(files: seq<Source>)
    requires AllParserContract(files)
    ensures Flatten(Ingested(files).batches) + Records(Ingested(files).offset, Ingested(files).docs, Ingested(files).meta)
         == Records(0, AllDocs(files), AllMetas(files))
  {
    if files != [] {
      var pre := files[..|files| - 1];
      IngestedAccounts(pre);
      StepAccounts(Ingested(pre), Process(files[|files| - 1]), AllDocs(pre), AllMetas(pre));
    }
  }

  /** ID contiguity: the records sent over the whole run are every chunk of
      every processed file, in input order, with ids "0", "1", ... and no
      gap or repeat. */
  lemma SentIsEverything(files: seq<Source>)
    requires AllParserContract(files)
    ensures Flatten(Batches(files)) == Records(0, AllDocs(files), AllMetas(files))
    ensures forall k :: 0 <= k < |Flatten(Batches(files))| ==> Flatten(Batches(files))[k].id == Decimal(k)
  {
    IngestedAccounts(files);
    var p := Ingested(files);
    if |p.meta| == 0 {
      assert Records(p.offset, p.docs, p.meta) == [];
      assert Flatten(p.batches) + [] == Flatten(p.batches);
    }
  }

  /** The threshold is checked per file, not per chunk: a file that alone
      yields at least 512 entries onto an empty batch is sent whole, as one
      batch. */
  lemma OneFileOneFlush(pre: seq<Source>, f: Source)
    requires AllParserContract(pre) && ParserContract(f)
    requires Ingested(pre).meta == [] && Process(f).Processed? && |Process(f).meta| >= BatchThreshold
    ensures AllParserContract(pre + [f])
    ensures Ingested(pre + [f]).batches ==
      Ingested(pre).batches + [Records(Ingested(pre).offset, Process(f).docs, Process(f).meta)]
    ensures Ingested(pre + [f]).meta == []
  {
    assert (pre + [f])[..|pre|] == pre;
    var p := Ingested(pre);
    assert p.docs == [];
    assert Ingested(pre + [f]) == Step(p, Process(f));
    assert p.docs + Process(f).docs == Process(f).docs;
    assert p.meta + Process(f).meta == Process(f).meta;
  }

  /** Later files only ever add batches: the batches sent after the first
      i files are a prefix of the whole run's. */
  lemma {:induction false} IngestedGrows(files: seq<Source>, i: nat)
    requires AllParserContract(files) && i <= |files|
    ensures AllParserContract(files[..i])
    ensures Ingested(files[..i]).batches <= Batches(files)
    decreases |files| - i
  {
    if i == |files| {
      assert files[..i] == files;
    } else {
      IngestedGrows(files, i + 1);
      assert files[..i + 1][..i] == files[..i];
    }
  }

  lemma IngestedSnoc(files: seq<Source>, i: nat)
    requires AllParserContract(files) && i < |files|
    ensures AllParserContract(files[..i]) && AllParserContract(files[..i + 1]) && ParserContract(files[i])
    ensures Ingested(files[..i + 1]) == Step(Ingested(files[..i]), Process(files[i]))
  {
    assert files[..i + 1][..i] == files[..i];
  }

  lemma StepCases(p: Plan, o: Outcome)
    requires |p.docs| == |p.meta| && (o.Processed? ==> |o.docs| == |o.meta|)
    ensures |p.docs + o.AddedDocs()| == |p.meta + o.AddedMetas()|
    ensures o.Processed? && |p.meta + o.AddedMetas()| >= BatchThreshold ==>
      Step(p, o) == Plan(p.batches + [Records(p.offset, p.docs + o.AddedDocs(), p.meta + o.AddedMetas())],
                         p.offset + |p.meta + o.AddedMetas()|, [], [])
    ensures !(o.Processed? && |p.meta + o.AddedMetas()| >= BatchThreshold) ==>
      Step(p, o) == Plan(p.batches, p.offset, p.docs + o.AddedDocs(), p.meta + o.AddedMetas())
  {
    if o.Skipped? {
      assert p.docs + o.AddedDocs() == p.docs && p.meta + o.AddedMetas() == p.meta;
    }
  }

  lemma PrefixTake<T>(a: seq<T>, b: seq<T>)
    requires a <= b
    ensures b[..|a|] == a
  {
  }

  // ---------------------------------------------------------------------
  // The gateway replies
  // ---------------------------------------------------------------------

  /** A reply script answers call c with replies[c]; calls past its end
      succeed. */
  function Rest(replies: seq<bool>): seq<bool> {
    if replies == [] then [] else replies[1..]
  }

  /** The position of the first refusal in a reply script, or its length
      when it refuses nothing (and then every call succeeds). */
  function FirstRefusal(replies: seq<bool>): (k: nat)
    ensures k <= |replies|
    ensures forall j :: 0 <= j < k ==> replies[j]
    ensures k < |replies| ==> !replies[k]
  {
    if replies == [] || !replies[0] then 0 else 1 + FirstRefusal(replies[1..])
  }

  /** The number of the first n calls answered before the first refusal. */
  function Accepted(replies: seq<bool>, n: nat): (k: nat)
    ensures k <= n
  {
    var k := FirstRefusal(replies);
    if k == |replies| || n <= k then n else k
  }

  /** The replies left after c calls. */
  function Drop(replies: seq<bool>, c: nat): seq<bool> {
    if c < |replies| then replies[c..] else []
  }

  /** After m accepted calls, the next call is accepted exactly when the
      first m + 1 are, and otherwise no later call is counted. */
  lemma AcceptedNext(replies: seq<bool>, m: nat, n: nat)
    requires m <= n && Accepted(replies, m) == m
    ensures Drop(replies, m) == [] || Drop(replies, m)[0] ==> Accepted(replies, m + 1) == m + 1
    ensures !(Drop(replies, m) == [] || Drop(replies, m)[0]) ==> Accepted(replies, n) == m
    ensures Rest(Drop(replies, m)) == Drop(replies, m + 1)
  {
    if m < |replies| {
      assert Drop(replies, m)[0] == replies[m];
    }
  }

  /** The vector store and the embedding service, seen from the indexer:
      the batches accepted so far and the replies still to come. */
  class Collection {
    var added: seq<seq<Record>>
    var replies: seq<bool>

    constructor (script: seq<bool>)
      ensures added == [] && replies == script
    {
      added, replies := [], script;
    }

    /** One embeddings request plus one collection.add with the ids,
        metadatas and documents of a batch, positionally paired. */
    method Insert(ids: seq<string>, metas: seq<Meta>, docs: seq<seq<byte>>) returns (ok: bool)
      requires |ids| == |metas| == |docs|
      modifies this
      ensures ok == (old(replies) == [] || old(replies)[0])
      ensures replies == Rest(old(replies))
      ensures added == old(added) +
        (if ok then [seq(|ids|, i requires 0 <= i < |ids| => Record(ids[i], metas[i], docs[i]))] else [])
    {
      ok := replies == [] || replies[0];
      replies := Rest(replies);
      if ok {
        added := added + [seq(|ids|, i requires 0 <= i < |ids| => Record(ids[i], metas[i], docs[i]))];
      }
    }
  }

  /** The ids of `add`: (offset..offset + n).map(to_string). */
  function Ids(offset: nat, n: nat): (ids: seq<string>)
    ensures |ids| == n
  {
    seq(n, i requires 0 <= i < n => Decimal(offset + i))
  }

  /** add: numbers the batch from offset and hands it to the gateway. */
  method Add(store: Collection, offset: nat, docs: seq<seq<byte>>, meta: seq<Meta>) returns (ok: bool)
    requires |docs| == |meta|
    modifies store
    ensures ok == (old(store.replies) == [] || old(store.replies)[0])
    ensures store.replies == Rest(old(store.replies))
    ensures store.added == old(store.added) + (if ok then [Records(offset, docs, meta)] else [])
  {
    var ids := Ids(offset, |docs|);
    ok := store.Insert(ids, meta, docs);
    assert seq(|ids|, i requires 0 <= i < |ids| => Record(ids[i], meta[i], docs[i])) == Records(offset, docs, meta);
  }

  // ---------------------------------------------------------------------
  // The loop itself
  // ---------------------------------------------------------------------

  /** The body of the loop up to the threshold check; false where the
      source hits `continue`. */
  method ProcessFile(f: Source, pending: Pending) returns (reached: bool)
    requires ParserContract(f)
    modifies pending
    ensures reached <==> Process(f).Processed?
    ensures reached ==> (pending.docs == old(pending.docs) + Process(f).docs
                      && pending.meta == old(pending.meta) + Process(f).meta)
    ensures !reached ==> pending.docs == old(pending.docs) && pending.meta == old(pending.meta)
  {
    if !f.openOk || !f.statOk {
      return false;
    }
    var ext := Extension(f.path);
    if ext.None? {
      return false;
    }
    var language := LanguageFor(ext.value);
    if language.Some? {
      if !f.readOk {
        return false;
      }
      if f.tree.None? {
        return false;
      }
      WalkTree(f.path, f.tree.value, f.content, pending);
    } else {
      if !f.readOk {
        return false;
      }
      // The whole-file embedding request is built here and then dropped.
    }
    return true;
  }

  /** What one pass of the loop does to the pending buffers and the store:
      the file's entries are appended, and when the file reached the
      threshold check with at least 512 entries pending, the call to add
      answers with the next reply, the accepted batch is recorded, and the
      buffers are cleared. */
  ghost predicate OneStep(f: Source, docs0: seq<seq<byte>>, meta0: seq<Meta>,
                          added0: seq<seq<Record>>, replies0: seq<bool>, offset: nat,
                          ok: bool, next: nat, docs1: seq<seq<byte>>, meta1: seq<Meta>,
                          added1: seq<seq<Record>>, replies1: seq<bool>)
  {
    && ParserContract(f)
    && var o := Process(f);
    var docs, meta := docs0 + o.AddedDocs(), meta0 + o.AddedMetas();
    var flush := o.Processed? && |meta| >= BatchThreshold;
    && |docs| == |meta|
    && (!flush ==> ok && next == offset && docs1 == docs && meta1 == meta
                   && added1 == added0 && replies1 == replies0)
    && (flush ==> ok == (replies0 == [] || replies0[0])
                  && replies1 == Rest(replies0)
                  && added1 == added0 + (if ok then [Records(offset, docs, meta)] else [])
                  && (ok ==> next == offset + |meta| && docs1 == [] && meta1 == []))
  }

  /** One pass of the `for line in stdin().lines()` loop. */
  method IndexOne(f: Source, pending: Pending, store: Collection, offset: nat) returns (ok: bool, next: nat)
    requires ParserContract(f) && |pending.docs| == |pending.meta|
    modifies pending, store
    ensures OneStep(f, old(pending.docs), old(pending.meta), old(store.added), old(store.replies), offset,
                    ok, next, pending.docs, pending.meta, store.added, store.replies)
  {
    var reached := ProcessFile(f, pending);
    next := offset;
    ok := true;
    if reached && |pending.meta| >= BatchThreshold {
      ok := Add(store, offset, pending.docs, pending.meta);
      if !ok {
        return;
      }
      next := offset + |pending.meta|;
      pending.Clear();
    }
  }

  /** What the flush after the loop does to the store: whatever is pending
      is sent, however little; nothing is sent when nothing is pending. */
  ghost predicate FlushStep(offset: nat, docs: seq<seq<byte>>, meta: seq<Meta>,
                            added0: seq<seq<Record>>, replies0: seq<bool>,
                            ok: bool, added1: seq<seq<Record>>, replies1: seq<bool>)
  {
    && |docs| == |meta|
    && (|meta| == 0 ==> ok && added1 == added0 && replies1 == replies0)
    && (|meta| > 0 ==> ok == (replies0 == [] || replies0[0])
                       && replies1 == Rest(replies0)
                       && added1 == added0 + (if ok then [Records(offset, docs, meta)] else []))
  }

  /** The flush after the loop. */
  method FinalFlush(store: Collection, offset: nat, docs: seq<seq<byte>>, meta: seq<Meta>) returns (ok: bool)
    requires |docs| == |meta|
    modifies store
    ensures FlushStep(offset, docs, meta, old(store.added), old(store.replies), ok, store.added, store.replies)
  {
    ok := true;
    if |meta| > 0 {
      ok := Add(store, offset, docs, meta);
    }
  }

  /** The loop's invariant against a plan: the pending buffers and the
      offset are the plan's, its batches begin the run's batches all, and
      the store holds exactly those batches, every one of them accepted. */
  ghost predicate Holds(plan: Plan, all: seq<seq<Record>>, docs: seq<seq<byte>>, meta: seq<Meta>, offset: nat,
                        added: seq<seq<Record>>, replies: seq<bool>,
                        script: seq<bool>, added0: seq<seq<Record>>)
  {
    && plan.offset == offset && plan.docs == docs && plan.meta == meta
    && plan.batches <= all
    && Accepted(script, |plan.batches|) == |plan.batches|
    && added == added0 + plan.batches
    && replies == Drop(script, |plan.batches|)
  }

  /** What the loop keeps: after the first i files, the loop's state holds
      against Ingested of those files. */
  ghost predicate Tracks(files: seq<Source>, i: nat, docs: seq<seq<byte>>, meta: seq<Meta>, offset: nat,
                         added: seq<seq<Record>>, replies: seq<bool>,
                         script: seq<bool>, added0: seq<seq<Record>>)
  {
    && i <= |files| && AllParserContract(files)
    && Holds(Ingested(files[..i]), Batches(files), docs, meta, offset, added, replies, script, added0)
  }

  /** The store after the first refused call among the batches all. */
  ghost predicate RefusedIn(all: seq<seq<Record>>, added: seq<seq<Record>>, replies: seq<bool>,
                            script: seq<bool>, added0: seq<seq<Record>>)
  {
    var k := Accepted(script, |all|);
    && k < |all|
    && added == added0 + all[..k]
    && replies == Drop(script, k + 1)
  }

  /** The store after every one of the batches all was accepted. */
  ghost predicate CompletedIn(all: seq<seq<Record>>, added: seq<seq<Record>>, replies: seq<bool>,
                              script: seq<bool>, added0: seq<seq<Record>>)
  {
    var k := Accepted(script, |all|);
    && k == |all|
    && added == added0 + all[..k]
    && replies == Drop(script, k)
  }

  /** The store after the first refused call of the run. */
  ghost predicate Refused(files: seq<Source>, added: seq<seq<Record>>, replies: seq<bool>,
                          script: seq<bool>, added0: seq<seq<Record>>)
  {
    AllParserContract(files) && RefusedIn(Batches(files), added, replies, script, added0)
  }

  /** The store after a run whose every call was accepted. */
  ghost predicate Completed(files: seq<Source>, added: seq<seq<Record>>, replies: seq<bool>,
                            script: seq<bool>, added0: seq<seq<Record>>)
  {
    AllParserContract(files) && CompletedIn(Batches(files), added, replies, script, added0)
  }

  /** What Step does with the next file, in the terms of OneStep. */
  lemma StepFacts(files: seq<Source>, i: nat)
    requires AllParserContract(files) && i < |files|
    ensures var plan, o, after := Ingested(files[..i]), Process(files[i]), Ingested(files[..i + 1]);
      var docs, meta := plan.docs + o.AddedDocs(), plan.meta + o.AddedMetas();
      var flush := o.Processed? && |meta| >= BatchThreshold;
      && ParserContract(files[i]) && |docs| == |meta|
      && (!flush ==> after == Plan(plan.batches, plan.offset, docs, meta))
      && (flush ==> after == Plan(plan.batches + [Records(plan.offset, docs, meta)], plan.offset + |meta|, [], []))
      && after.batches <= Batches(files)
  {
    IngestedSnoc(files, i);
    IngestedGrows(files, i + 1);
    StepCases(Ingested(files[..i]), Process(files[i]));
  }

  /** How the store answers the send of batch b after the batches sent,
      when those were all accepted and b extends them towards all: an
      accepted b is recorded and keeps every batch so far accepted; a
      refused b is the run's first refusal. */
  lemma SendReply<T>(script: seq<bool>, sent: seq<T>, b: T, all: seq<T>, added0: seq<T>,
                     added: seq<T>, replies: seq<bool>, ok: bool, added1: seq<T>, replies1: seq<bool>)
    requires sent + [b] <= all && Accepted(script, |sent|) == |sent|
    requires added == added0 + sent && replies == Drop(script, |sent|)
    requires ok == (replies == [] || replies[0]) && replies1 == Rest(replies)
    requires added1 == added + (if ok then [b] else [])
    ensures ok ==> && Accepted(script, |sent| + 1) == |sent| + 1
                   && added1 == added0 + (sent + [b]) && replies1 == Drop(script, |sent| + 1)
    ensures !ok ==> && |sent| < |all|
                    && Accepted(script, |all|) == |sent|
                    && added1 == added0 + all[..|sent|] && replies1 == Drop(script, |sent| + 1)
  {
    var n := |sent|;
    assert n < |all| by { assert |sent + [b]| <= |all|; }
    AcceptedNext(script, n, |all|);
    assert all[..n] == sent by {
      PrefixTake(sent + [b], all);
      assert (sent + [b])[..n] == sent;
      assert all[..n] == all[..n + 1][..n];
    }
  }

  /** A pass of the loop that sends nothing keeps the loop's invariant. */
  lemma QuietStep(files: seq<Source>, i: nat, offset: nat, script: seq<bool>, added0: seq<seq<Record>>,
                  docs0: seq<seq<byte>>, meta0: seq<Meta>, added: seq<seq<Record>>, replies: seq<bool>,
                  docs1: seq<seq<byte>>, meta1: seq<Meta>)
    requires i < |files| && Tracks(files, i, docs0, meta0, offset, added, replies, script, added0)
    requires var o := Process(files[i]);
      && docs1 == docs0 + o.AddedDocs() && meta1 == meta0 + o.AddedMetas()
      && !(o.Processed? && |meta1| >= BatchThreshold)
    ensures Tracks(files, i + 1, docs1, meta1, offset, added, replies, script, added0)
  {
    StepFacts(files, i);
  }

  /** Sending batch b, which takes plan to after, keeps the invariant when
      it is accepted, and is the first refusal of the run when it is not. */
  lemma SendPlan(plan: Plan, after: Plan, all: seq<seq<Record>>, b: seq<Record>, n: nat,
                 script: seq<bool>, added0: seq<seq<Record>>, added: seq<seq<Record>>, replies: seq<bool>,
                 ok: bool, next: nat, docs1: seq<seq<byte>>, meta1: seq<Meta>,
                 added1: seq<seq<Record>>, replies1: seq<bool>)
    requires Holds(plan, all, plan.docs, plan.meta, plan.offset, added, replies, script, added0)
    requires after == Plan(plan.batches + [b], plan.offset + n, [], []) && after.batches <= all
    requires ok == (replies == [] || replies[0]) && replies1 == Rest(replies)
    requires added1 == added + (if ok then [b] else [])
    requires ok ==> next == plan.offset + n && docs1 == [] && meta1 == []
    ensures ok ==> Holds(after, all, docs1, meta1, next, added1, replies1, script, added0)
    ensures !ok ==> RefusedIn(all, added1, replies1, script, added0)
  {
    SendReply(script, plan.batches, b, all, added0, added, replies, ok, added1, replies1);
  }

  /** A pass of the loop that sends a batch keeps the loop's invariant when
      the batch is accepted, and leaves the store refused when it is not. */
  lemma SendStep(files: seq<Source>, i: nat, offset: nat, script: seq<bool>, added0: seq<seq<Record>>,
                 docs0: seq<seq<byte>>, meta0: seq<Meta>, added: seq<seq<Record>>, replies: seq<bool>,
                 ok: bool, next: nat, docs1: seq<seq<byte>>, meta1: seq<Meta>,
                 added1: seq<seq<Record>>, replies1: seq<bool>)
    requires i < |files| && Tracks(files, i, docs0, meta0, offset, added, replies, script, added0)
    requires var o := Process(files[i]);
      var docs, meta := docs0 + o.AddedDocs(), meta0 + o.AddedMetas();
      && |docs| == |meta| && o.Processed? && |meta| >= BatchThreshold
      && ok == (replies == [] || replies[0])
      && replies1 == Rest(replies)
      && added1 == added + (if ok then [Records(offset, docs, meta)] else [])
      && (ok ==> next == offset + |meta| && docs1 == [] && meta1 == [])
    ensures ok ==> Tracks(files, i + 1, docs1, meta1, next, added1, replies1, script, added0)
    ensures !ok ==> Refused(files, added1, replies1, script, added0)
  {
    StepFacts(files, i);
    var plan, o, after := Ingested(files[..i]), Process(files[i]), Ingested(files[..i + 1]);
    var meta := meta0 + o.AddedMetas();
    var b := Records(offset, docs0 + o.AddedDocs(), meta);
    SendPlan(plan, after, Batches(files), b, |meta|, script, added0, added, replies,
             ok, next, docs1, meta1, added1, replies1);
  }

  /** One pass of the loop keeps the loop's invariant, or leaves the store
      refused. */
  lemma StepKeepsTracks(files: seq<Source>, i: nat, offset: nat, script: seq<bool>, added0: seq<seq<Record>>,
                        docs0: seq<seq<byte>>, meta0: seq<Meta>, added: seq<seq<Record>>, replies: seq<bool>,
                        ok: bool, next: nat, docs1: seq<seq<byte>>, meta1: seq<Meta>,
                        added1: seq<seq<Record>>, replies1: seq<bool>)
    requires i < |files| && Tracks(files, i, docs0, meta0, offset, added, replies, script, added0)
    requires OneStep(files[i], docs0, meta0, added, replies, offset, ok, next, docs1, meta1, added1, replies1)
    ensures ok ==> Tracks(files, i + 1, docs1, meta1, next, added1, replies1, script, added0)
    ensures !ok ==> Refused(files, added1, replies1, script, added0)
  {
    var o := Process(files[i]);
    if o.Processed? && |meta0 + o.AddedMetas()| >= BatchThreshold {
      SendStep(files, i, offset, script, added0, docs0, meta0, added, replies, ok, next, docs1, meta1, added1, replies1);
    } else {
      QuietStep(files, i, offset, script, added0, docs0, meta0, added, replies, docs1, meta1);
    }
  }

  /** The flush after the loop, against a plan whose pending entries are
      the run's last batch when there are any. */
  lemma FinishPlan(plan: Plan, all: seq<seq<Record>>, script: seq<bool>, added0: seq<seq<Record>>,
                   added: seq<seq<Record>>, replies: seq<bool>, ok: bool,
                   added1: seq<seq<Record>>, replies1: seq<bool>)
    requires |plan.docs| == |plan.meta|
    requires Holds(plan, all, plan.docs, plan.meta, plan.offset, added, replies, script, added0)
    requires |plan.meta| == 0 ==> all == plan.batches
    requires |plan.meta| > 0 ==> all == plan.batches + [Records(plan.offset, plan.docs, plan.meta)]
    requires FlushStep(plan.offset, plan.docs, plan.meta, added, replies, ok, added1, replies1)
    ensures ok ==> CompletedIn(all, added1, replies1, script, added0)
    ensures !ok ==> RefusedIn(all, added1, replies1, script, added0)
  {
    if |plan.meta| > 0 {
      var b := Records(plan.offset, plan.docs, plan.meta);
      SendReply(script, plan.batches, b, all, added0, added, replies, ok, added1, replies1);
      assert all[..|all|] == all;
    } else {
      assert all[..|all|] == all;
    }
  }

  /** The flush after the loop completes the run, or leaves the store
      refused. */
  lemma FinishKeepsTracks(files: seq<Source>, offset: nat, script: seq<bool>, added0: seq<seq<Record>>,
                          docs: seq<seq<byte>>, meta: seq<Meta>, added: seq<seq<Record>>, replies: seq<bool>,
                          ok: bool, added1: seq<seq<Record>>, replies1: seq<bool>)
    requires Tracks(files, |files|, docs, meta, offset, added, replies, script, added0)
    requires FlushStep(offset, docs, meta, added, replies, ok, added1, replies1)
    ensures ok ==> Completed(files, added1, replies1, script, added0)
    ensures !ok ==> Refused(files, added1, replies1, script, added0)
  {
    assert files[..|files|] == files;
    FinishPlan(Ingested(files), Batches(files), script, added0, added, replies, ok, added1, replies1);
  }

  /** One iteration of the loop, against the run's plan. */
  method IndexStep(files: seq<Source>, i: nat, pending: Pending, offset: nat, store: Collection,
                   ghost script: seq<bool>, ghost added0: seq<seq<Record>>)
    returns (ok: bool, next: nat)
    requires i < |files|
    requires Tracks(files, i, pending.docs, pending.meta, offset, store.added, store.replies, script, added0)
    modifies pending, store
    ensures ok ==> Tracks(files, i + 1, pending.docs, pending.meta, next, store.added, store.replies, script, added0)
    ensures !ok ==> Refused(files, store.added, store.replies, script, added0)
  {
    ghost var docs0, meta0, added, replies := pending.docs, pending.meta, store.added, store.replies;
    assert ParserContract(files[i]);
    ok, next := IndexOne(files[i], pending, store, offset);
    StepKeepsTracks(files, i, offset, script, added0, docs0, meta0, added, replies,
                    ok, next, pending.docs, pending.meta, store.added, store.replies);
  }

  /** The flush after the loop, against the run's plan. */
  method IndexFinish(files: seq<Source>, pending: Pending, offset: nat, store: Collection,
                     ghost script: seq<bool>, ghost added0: seq<seq<Record>>)
    returns (ok: bool)
    requires Tracks(files, |files|, pending.docs, pending.meta, offset, store.added, store.replies, script, added0)
    modifies store
    ensures ok ==> Completed(files, store.added, store.replies, script, added0)
    ensures !ok ==> Refused(files, store.added, store.replies, script, added0)
  {
    ghost var added, replies := store.added, store.replies;
    ok := FinalFlush(store, offset, pending.docs, pending.meta);
    FinishKeepsTracks(files, offset, script, added0, pending.docs, pending.meta, added, replies,
                      ok, store.added, store.replies);
  }

  /** index: the batches of the run reach the store in order, up to the
      first refused call; the run fails exactly when some call is refused. */
  method Index(files: seq<Source>, store: Collection) returns (r: Result<(), Fatal>)
    requires AllParserContract(files)
    modifies store
    ensures var bs := Batches(files);
      var k := Accepted(old(store.replies), |bs|);
      && store.added == old(store.added) + bs[..k]
      && (r.Success? <==> k == |bs|)
      && store.replies == Drop(old(store.replies), if k == |bs| then k else k + 1)
  {
    ghost var script := store.replies;
    ghost var added0 := store.added;
    var offset: nat := 0;
    var pending := new Pending();
    var i := 0;
    while i < |files|
      invariant i <= |files|
      invariant Tracks(files, i, pending.docs, pending.meta, offset, store.added, store.replies, script, added0)
    {
      var ok;
      ok, offset := IndexStep(files, i, pending, offset, store, script, added0);
      if !ok {
        return Failure(GatewayFailed);
      }
      i := i + 1;
    }
    var ok := IndexFinish(files, pending, offset, store, script, added0);
    if !ok {
      return Failure(GatewayFailed);
    }
    return Success(());
  }
}
