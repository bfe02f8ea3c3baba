/**
 * Batched embedding (packages/embeddings/src/index.ts) and the cache of
 * vectors by text hash in front of it (packages/pipeline/src/embed.ts).
 */
module Embeddings {
  import opened Wrappers

  const BATCH_SIZE := 32
  const MAX_INPUT_CHARS := 4000
  const DIMENSIONS := 384

  type Vector = seq<real>

  datatype Tensor = Tensor(data: seq<real>, dims: seq<nat>)

  // ---- The provider

  function Cut(text: string): string {
    if |text| <= MAX_INPUT_CHARS then text else text[..MAX_INPUT_CHARS]
  }

  function Rows(data: seq<real>, rows: nat, width: nat): (vectors: seq<Vector>)
    requires |data| == rows * width
    ensures |vectors| == rows
  {
    if rows == 0 then []
    else
      assert |data[width..]| == (rows - 1) * width;
      [data[..width]] + Rows(data[width..], rows - 1, width)
  }

  /** Consecutive stretches of `dimensions` numbers, if the declared shape has that width and fits the data. */
  function SplitRows(t: Tensor, dimensions: nat): Result<seq<Vector>, ()> {
    var rows := if |t.dims| > 0 then t.dims[0] else 0;
    var width := if |t.dims| > 1 then t.dims[1] else 0;
    if width != dimensions || |t.data| != rows * width then Err(()) else Ok(Rows(t.data, rows, width))
  }

  function Flatten(vectors: seq<Vector>): seq<real> {
    if vectors == [] then [] else vectors[0] + Flatten(vectors[1..])
  }

  ghost predicate HaveWidth(vectors: seq<Vector>, width: nat) {
    forall i :: 0 <= i < |vectors| ==> |vectors[i]| == width
  }

  lemma {:induction false} FlattenLength(vectors: seq<Vector>, width: nat)
    requires HaveWidth(vectors, width)
    ensures |Flatten(vectors)| == |vectors| * width
  {
    if vectors != [] {
      FlattenLength(vectors[1..], width);
      assert |vectors| * width == width + |vectors[1..]| * width;
    }
  }

  /** Splitting undoes laying the rows end to end. */
  lemma {:induction false} RowsOfFlatten(vectors: seq<Vector>, width: nat)
    requires HaveWidth(vectors, width)
    ensures |Flatten(vectors)| == |vectors| * width
    ensures Rows(Flatten(vectors), |vectors|, width) == vectors
  {
    FlattenLength(vectors, width);
    if vectors != [] {
      FlattenLength(vectors[1..], width);
      RowsOfFlatten(vectors[1..], width);
      assert Flatten(vectors)[width..] == Flatten(vectors[1..]);
    }
  }

  /** And laying end to end undoes splitting; an accepted tensor has exactly the shape asked for. */
  lemma SplitRowsExactly(t: Tensor, dimensions: nat)
    ensures SplitRows(t, dimensions).Ok? <==>
      && (if |t.dims| > 1 then t.dims[1] else 0) == dimensions
      && |t.data| == (if |t.dims| > 0 then t.dims[0] else 0) * dimensions
    ensures SplitRows(t, dimensions).Ok? ==>
      && HaveWidth(SplitRows(t, dimensions).value, dimensions)
      && Flatten(SplitRows(t, dimensions).value) == t.data
  {
    if SplitRows(t, dimensions).Ok? {
      FlattenOfRows(t.data, if |t.dims| > 0 then t.dims[0] else 0, dimensions);
    }
  }

  lemma {:induction false} FlattenOfRows(data: seq<real>, rows: nat, width: nat)
    requires |data| == rows * width
    ensures Flatten(Rows(data, rows, width)) == data && HaveWidth(Rows(data, rows, width), width)
  {
    if rows > 0 {
      assert |data[width..]| == (rows - 1) * width;
      FlattenOfRows(data[width..], rows - 1, width);
      assert data == data[..width] + data[width..];
    }
  }

  function Apply<A, B>(f: A -> B, xs: seq<A>): (ys: seq<B>)
    ensures |ys| == |xs| && forall i :: 0 <= i < |xs| ==> ys[i] == f(xs[i])
  {
    seq(|xs|, i requires 0 <= i < |xs| => f(xs[i]))
  }

  /** The extractor answers a batch with one row of 384 numbers for each text, each depending on that text only. */
  ghost predicate IsRowWise(extract: seq<string> -> Tensor, embed: string -> Vector) {
    && (forall text :: |embed(text)| == 384)
    && forall batch :: extract(batch) == Tensor(Flatten(Apply(embed, batch)), [|batch|, 384])
  }

  lemma BatchOf(extract: seq<string> -> Tensor, embed: string -> Vector, batch: seq<string>)
    requires IsRowWise(extract, embed)
    ensures SplitRows(extract(batch), DIMENSIONS) == Ok(Apply(embed, batch))
  {
    RowsOfFlatten(Apply(embed, batch), DIMENSIONS);
  }

  /** The text is cut to its first 4000 characters. */
  ghost predicate IsCut(cut: string, text: string) {
    cut <= text && |cut| == if |text| < 4000 then |text| else 4000
  }

  /** The batch holds the texts from `start` on, cut, up to 32 of them. */
  ghost predicate IsBatch(batch: seq<string>, texts: seq<string>, start: nat) {
    && start < |texts| && |batch| == (if start + 32 < |texts| then 32 else |texts| - start)
    && forall i :: 0 <= i < |batch| ==> IsCut(batch[i], texts[start + i])
  }

  lemma BatchIs(texts: seq<string>, start: nat, stop: nat)
    requires start < |texts| && stop == if start + 32 < |texts| then start + 32 else |texts|
    ensures IsBatch(Apply(Cut, texts[start..stop]), texts, start)
  {
  }

  /**
   * The extractor is given the texts in order, 32 at a time; what it answers
   * is, in input order, the vector of each text on its own.
   */
  method Embed(texts: seq<string>, extract: seq<string> -> Tensor, ghost embed: string -> Vector)
    returns (r: Result<seq<Vector>, ()>, ghost batches: seq<seq<string>>)
    ensures IsRowWise(extract, embed) ==>
      r.Ok? && |r.value| == |texts| &&
      forall i, cut :: 0 <= i < |texts| && IsCut(cut, texts[i]) ==> r.value[i] == embed(cut)
    ensures forall k :: 0 <= k < |batches| ==> IsBatch(batches[k], texts, 32 * k)
    ensures r.Ok? ==> 32 * |batches| >= |texts|
  {
    hide IsRowWise, SplitRows, IsBatch;
    var vectors: seq<Vector> := [];
    var start := 0;
    batches := [];
    while start < |texts|
      invariant start == 32 * |batches|
      invariant forall k :: 0 <= k < |batches| ==> IsBatch(batches[k], texts, 32 * k)
      invariant IsRowWise(extract, embed) ==>
        && |vectors| == (if start < |texts| then start else |texts|)
        && forall i :: 0 <= i < |vectors| ==> vectors[i] == embed(Cut(texts[i]))
    {
      var stop := if start + BATCH_SIZE < |texts| then start + BATCH_SIZE else |texts|;
      var batch := Apply(Cut, texts[start..stop]);
      BatchIs(texts, start, stop);
      batches := batches + [batch];
      var split := SplitRows(extract(batch), DIMENSIONS);
      if IsRowWise(extract, embed) {
        BatchOf(extract, embed, batch);
      }
      if split.Err? {
        return Err(()), batches;
      }
      vectors := vectors + split.value;
      start := start + BATCH_SIZE;
    }
    assert forall i, cut :: 0 <= i < |texts| && IsCut(cut, texts[i]) ==> cut == Cut(texts[i]);
    return Ok(vectors), batches;
  }

  // ---- The cache

  datatype Planned = Planned(item: nat, ordinal: nat, content: string, hash: string)

  /** One chunk row with its embedding row. Old rows may have no hash. */
  datatype Stored = Stored(
    item: nat, ordinal: nat, content: string, hash: Option<string>, model: string, vector: Vector)

  datatype Item = Item(id: nat, content: string)

  function Plan(item: Item, chunker: Item -> seq<string>, hash: string -> string): seq<Planned> {
    seq(|chunker(item)|, i requires 0 <= i < |chunker(item)| =>
      Planned(item.id, i, chunker(item)[i], hash(chunker(item)[i])))
  }

  function PlanAll(items: seq<Item>, chunker: Item -> seq<string>, hash: string -> string): (planned: seq<Planned>)
    ensures forall i :: 0 <= i < |planned| ==> planned[i].hash == hash(planned[i].content)
  {
    if items == [] then []
    else Plan(items[0], chunker, hash) + PlanAll(items[1..], chunker, hash)
  }

  /** How many chunks the first `k` items have. */
  function ChunksBefore(items: seq<Item>, chunker: Item -> seq<string>, k: nat): nat
    requires k <= |items|
  {
    if k == 0 then 0 else ChunksBefore(items, chunker, k - 1) + |chunker(items[k - 1])|
  }

  lemma {:induction false} ChunksBeforeTail(items: seq<Item>, chunker: Item -> seq<string>, k: nat)
    requires 0 < k <= |items|
    ensures ChunksBefore(items, chunker, k) == |chunker(items[0])| + ChunksBefore(items[1..], chunker, k - 1)
  {
    if k > 1 {
      ChunksBeforeTail(items, chunker, k - 1);
    }
  }

  /** The plan is each item's chunks in turn, numbered from zero, each with its item, its text and its text's hash. */
  lemma {:induction false} PlannedAt(
    items: seq<Item>, chunker: Item -> seq<string>, hash: string -> string, k: nat, i: nat)
    requires k < |items| && i < |chunker(items[k])|
    ensures |PlanAll(items, chunker, hash)| == ChunksBefore(items, chunker, |items|)
    ensures ChunksBefore(items, chunker, k) + i < |PlanAll(items, chunker, hash)|
    ensures var text := chunker(items[k])[i];
      PlanAll(items, chunker, hash)[ChunksBefore(items, chunker, k) + i] == Planned(items[k].id, i, text, hash(text))
    decreases |items|
  {
    ChunksBeforeTail(items, chunker, |items|);
    PlannedCount(items[1..], chunker, hash);
    if k > 0 {
      ChunksBeforeTail(items, chunker, k);
      PlannedAt(items[1..], chunker, hash, k - 1, i);
    }
  }

  lemma {:induction false} PlannedCount(items: seq<Item>, chunker: Item -> seq<string>, hash: string -> string)
    ensures |PlanAll(items, chunker, hash)| == ChunksBefore(items, chunker, |items|)
    decreases |items|
  {
    if items != [] {
      ChunksBeforeTail(items, chunker, |items|);
      PlannedCount(items[1..], chunker, hash);
    }
  }

  predicate IsKnown(rows: seq<Stored>, model: string, hash: string, vector: Vector) {
    exists i :: 0 <= i < |rows| && rows[i].hash == Some(hash) && rows[i].model == model && rows[i].vector == vector
  }

  predicate Wants(planned: seq<Planned>, hash: string) {
    exists i :: 0 <= i < |planned| && planned[i].hash == hash
  }

  /** Some stored vector for each of the hashes that has one: `SELECT DISTINCT ON (content_hash)`. */
  function FindKnown(rows: seq<Stored>, model: string, planned: seq<Planned>): (known: map<string, Vector>)
    ensures forall h :: h in known ==> IsKnown(rows, model, h, known[h])
    ensures forall i :: 0 <= i < |rows| && rows[i].model == model && rows[i].hash.Some? ==>
      (rows[i].hash.value in known <==> Wants(planned, rows[i].hash.value))
  {
    if rows == [] then map[]
    else
      var n := |rows| - 1;
      var before := FindKnown(rows[..n], model, planned);
      assert forall h, v :: IsKnown(rows[..n], model, h, v) ==> IsKnown(rows, model, h, v);
      var row := rows[n];
      if row.model == model && row.hash.Some? && row.hash.value !in before && Wants(planned, row.hash.value)
      then before[row.hash.value := row.vector] else before
  }

  /** Hashes may be taken as names of texts. */
  ghost predicate IsInjective(hash: string -> string) {
    forall a, b :: hash(a) == hash(b) ==> a == b
  }

  /** Every stored row that has a hash has its own text's hash, and its own text's vector for its model. */
  ghost predicate RowsTrue(rows: seq<Stored>, hash: string -> string, embed: (string, string) -> Vector) {
    forall i :: 0 <= i < |rows| && rows[i].hash.Some? ==>
      rows[i].hash.value == hash(rows[i].content) && rows[i].vector == embed(rows[i].model, rows[i].content)
  }

  function RowFor(p: Planned, model: string, embed: (string, string) -> Vector): Stored {
    Stored(p.item, p.ordinal, p.content, Some(p.hash), model, embed(model, p.content))
  }

  /** Every vector in the map is the one for each planned text with that hash. */
  ghost predicate VectorsTrue(
    vectors: map<string, Vector>, planned: seq<Planned>, model: string, embed: (string, string) -> Vector)
  {
    forall i :: 0 <= i < |planned| && planned[i].hash in vectors ==>
      vectors[planned[i].hash] == embed(model, planned[i].content)
  }

  lemma KnownIsTrue(
    rows: seq<Stored>, planned: seq<Planned>, model: string, hash: string -> string, embed: (string, string) -> Vector)
    requires IsInjective(hash) && RowsTrue(rows, hash, embed)
    requires forall i :: 0 <= i < |planned| ==> planned[i].hash == hash(planned[i].content)
    ensures VectorsTrue(FindKnown(rows, model, planned), planned, model, embed)
  {
    hide FindKnown;
    var known := FindKnown(rows, model, planned);
    forall i | 0 <= i < |planned| && planned[i].hash in known
      ensures known[planned[i].hash] == embed(model, planned[i].content)
    {
      assert IsKnown(rows, model, planned[i].hash, known[planned[i].hash]);
    }
  }

  /** The computed vectors join the known ones; an answer that is too short leaves the last texts without any. */
  method AddComputed(
    known: map<string, Vector>, missing: seq<Planned>, computed: seq<Vector>, ghost planned: seq<Planned>,
    ghost model: string, ghost hash: string -> string, ghost embed: (string, string) -> Vector)
    returns (vectors: map<string, Vector>)
    requires IsInjective(hash) && VectorsTrue(known, planned, model, embed)
    requires forall i :: 0 <= i < |planned| ==> planned[i].hash == hash(planned[i].content)
    requires forall i :: 0 <= i < |missing| ==> missing[i] in planned
    requires forall i :: 0 <= i < |missing| && i < |computed| ==> computed[i] == embed(model, missing[i].content)
    ensures VectorsTrue(vectors, planned, model, embed)
    ensures forall h :: h in vectors <==>
      h in known || exists i :: 0 <= i < |missing| && i < |computed| && missing[i].hash == h
  {
    vectors := known;
    for i := 0 to |missing|
      invariant VectorsTrue(vectors, planned, model, embed)
      invariant forall h :: h in vectors <==>
        h in known || exists j :: 0 <= j < i && j < |computed| && missing[j].hash == h
    {
      if i < |computed| {
        vectors := vectors[missing[i].hash := computed[i]];
      }
    }
  }

  function RowsFor(planned: seq<Planned>, model: string, embed: (string, string) -> Vector): seq<Stored> {
    Apply((p: Planned) => RowFor(p, model, embed), planned)
  }

  lemma RowsStayTrue(
    rows: seq<Stored>, planned: seq<Planned>, kept: seq<Planned>, model: string, hash: string -> string,
    embed: (string, string) -> Vector)
    requires RowsTrue(rows, hash, embed)
    requires forall i :: 0 <= i < |planned| ==> planned[i].hash == hash(planned[i].content)
    requires forall p :: p in kept ==> p in planned
    ensures RowsTrue(rows + RowsFor(kept, model, embed), hash, embed)
  {
    forall i | 0 <= i < |kept|
      ensures kept[i].hash == hash(kept[i].content)
    {
      assert kept[i] in planned;
    }
  }

  /** The chunk's text has a stored vector or was answered. */
  predicate HasAnswer(rows: seq<Stored>, model: string, answered: seq<string>, p: Planned) {
    HasVector(rows, model, p.hash) || p.content in answered
  }

  /** The planned chunks that get a vector, in order. */
  function Kept(planned: seq<Planned>, rows: seq<Stored>, model: string, answered: seq<string>): seq<Planned> {
    if planned == [] then []
    else
      var n := |planned| - 1;
      Kept(planned[..n], rows, model, answered)
      + if HasAnswer(rows, model, answered, planned[n]) then [planned[n]] else []
  }

  lemma {:induction false} KeptAll(planned: seq<Planned>, rows: seq<Stored>, model: string, answered: seq<string>)
    requires forall i :: 0 <= i < |planned| ==> HasAnswer(rows, model, answered, planned[i])
    ensures Kept(planned, rows, model, answered) == planned
  {
    hide HasAnswer;
    if planned != [] {
      var n := |planned| - 1;
      KeptAll(planned[..n], rows, model, answered);
      assert HasAnswer(rows, model, answered, planned[n]);
      assert planned[..n] + [planned[n]] == planned;
    }
  }

  /**
   * Written are exactly the planned chunks whose text a row of the model
   * already has, by its hash, or the provider answered; the row is the
   * chunk's own with its own text's vector.
   */
  lemma WrittenExactly(
    planned: seq<Planned>, rows: seq<Stored>, model: string, answered: seq<string>,
    embed: (string, string) -> Vector, row: Stored)
    ensures row in RowsFor(Kept(planned, rows, model, answered), model, embed) <==>
      exists p :: p in planned
        && row == Stored(p.item, p.ordinal, p.content, Some(p.hash), model, embed(model, p.content))
        && (p.content in answered
            || exists i :: 0 <= i < |rows| && rows[i].hash == Some(p.hash) && rows[i].model == model)
  {
    KeptExactly(planned, rows, model, answered);
    var kept := Kept(planned, rows, model, answered);
    hide Kept;
    assert forall p :: HasVector(rows, model, p) <==>
      exists i :: 0 <= i < |rows| && rows[i].hash == Some(p) && rows[i].model == model;
    if row in RowsFor(kept, model, embed) {
      var k :| 0 <= k < |kept| && RowsFor(kept, model, embed)[k] == row;
      assert kept[k] in kept;
    }
    forall p | p in kept
      ensures RowFor(p, model, embed) in RowsFor(kept, model, embed)
    {
      var k :| 0 <= k < |kept| && kept[k] == p;
      assert RowsFor(kept, model, embed)[k] == RowFor(p, model, embed);
    }
  }

  lemma {:induction false} KeptExactly(planned: seq<Planned>, rows: seq<Stored>, model: string, answered: seq<string>)
    ensures forall p :: p in Kept(planned, rows, model, answered) <==>
      p in planned && HasAnswer(rows, model, answered, p)
  {
    hide HasAnswer;
    if planned != [] {
      var n := |planned| - 1;
      KeptExactly(planned[..n], rows, model, answered);
      assert planned == planned[..n] + [planned[n]];
    }
  }

  lemma {:induction false} KeptIsPlanned(planned: seq<Planned>, rows: seq<Stored>, model: string, answered: seq<string>)
    ensures forall p :: p in Kept(planned, rows, model, answered) ==> p in planned
  {
    hide HasAnswer;
    if planned != [] {
      KeptIsPlanned(planned[..|planned| - 1], rows, model, answered);
    }
  }

  /** A chunk has a vector in the map exactly when its text is stored or was among the answered ones. */
  lemma VectorsAreAnswers(
    planned: seq<Planned>, known: map<string, Vector>, missing: seq<Planned>, vectors: map<string, Vector>,
    rows: seq<Stored>, model: string, hash: string -> string, k: nat, p: Planned)
    requires IsInjective(hash) && known == FindKnown(rows, model, planned) && p in planned && k <= |missing|
    requires forall q :: q in planned ==> q.hash == hash(q.content)
    requires forall q :: q in missing ==> q in planned
    requires forall h :: h in vectors <==> h in known || exists i :: 0 <= i < k && missing[i].hash == h
    ensures p.hash in vectors <==>
      HasAnswer(rows, model, Apply((q: Planned) => q.content, missing)[..k], p)
  {
    hide FindKnown;
    var answered := Apply((q: Planned) => q.content, missing)[..k];
    assert p.hash in known <==> HasVector(rows, model, p.hash) by { KnownHasVector(planned, known, rows, model, p); }
    if i :| 0 <= i < k && missing[i].hash == p.hash {
      assert missing[i] in missing;
      assert answered[i] == p.content;
    }
    if p.content in answered {
      var i :| 0 <= i < k && answered[i] == p.content;
      assert missing[i] in missing;
      assert missing[i].hash == p.hash;
    }
  }

  lemma KnownHasVector(
    planned: seq<Planned>, known: map<string, Vector>, rows: seq<Stored>, model: string, p: Planned)
    requires known == FindKnown(rows, model, planned) && p in planned
    ensures p.hash in known <==> HasVector(rows, model, p.hash)
  {
    hide FindKnown;
    if p.hash in known {
      assert IsKnown(rows, model, p.hash, known[p.hash]);
    }
  }

  /** Whatever the provider answers, each vector is that of the text in its place. */
  ghost predicate IsTruthful(
    provide: seq<string> -> Result<seq<Vector>, ()>, model: string, embed: (string, string) -> Vector)
  {
    forall texts :: provide(texts).Ok? ==>
      forall i :: 0 <= i < |texts| && i < |provide(texts).value| ==>
        provide(texts).value[i] == embed(model, texts[i])
  }

  datatype Report = Report(items: nat, chunks: nat, reused: int, hasMore: bool)

  class ChunkStore {
    var rows: seq<Stored>

    constructor ()
      ensures rows == []
    {
      rows := [];
    }

    /** A chunk without a vector is not written. */
    method InsertChunk(chunk: Planned, model: string, vectors: map<string, Vector>)
      modifies this
      ensures rows == old(rows) + if chunk.hash !in vectors then [] else
        [Stored(chunk.item, chunk.ordinal, chunk.content, Some(chunk.hash), model, vectors[chunk.hash])]
    {
      if chunk.hash in vectors {
        rows := rows
          + [Stored(chunk.item, chunk.ordinal, chunk.content, Some(chunk.hash), model, vectors[chunk.hash])];
      }
    }

    method InsertAll(
      planned: seq<Planned>, model: string, vectors: map<string, Vector>, ghost embed: (string, string) -> Vector,
      ghost before: seq<Stored>, ghost answered: seq<string>)
      requires VectorsTrue(vectors, planned, model, embed)
      requires forall p :: p in planned ==> (p.hash in vectors <==> HasAnswer(before, model, answered, p))
      modifies this
      ensures rows == old(rows) + RowsFor(Kept(planned, before, model, answered), model, embed)
    {
      for i := 0 to |planned|
        invariant rows == old(rows) + RowsFor(Kept(planned[..i], before, model, answered), model, embed)
      {
        InsertChunk(planned[i], model, vectors);
        assert planned[..i + 1][..i] == planned[..i] && planned[i] in planned;
      }
      assert planned[..|planned|] == planned;
    }

    /** The answers are added to the known vectors and every chunk that has one is written. */
    method WriteAnswers(
      planned: seq<Planned>, known: map<string, Vector>, missing: seq<Planned>, computed: seq<Vector>,
      model: string, ghost hash: string -> string, ghost embed: (string, string) -> Vector)
      requires IsInjective(hash) && RowsTrue(rows, hash, embed)
      requires known == FindKnown(rows, model, planned) && VectorsTrue(known, planned, model, embed)
      requires forall i :: 0 <= i < |planned| ==> planned[i].hash == hash(planned[i].content)
      requires forall p :: p in missing ==> p in planned
      requires forall i :: 0 <= i < |missing| && i < |computed| ==> computed[i] == embed(model, missing[i].content)
      modifies this
      ensures RowsTrue(rows, hash, embed)
      ensures var answered := Prefix(Apply((p: Planned) => p.content, missing), |computed|);
        rows == old(rows) + RowsFor(Kept(planned, old(rows), model, answered), model, embed)
    {
      hide FindKnown, IsInjective, RowsTrue, VectorsTrue, RowsFor, Kept, HasAnswer;
      ghost var before, texts := rows, Apply((p: Planned) => p.content, missing);
      ghost var answered := Prefix(texts, |computed|);
      var vectors := AddComputed(known, missing, computed, planned, model, hash, embed);
      assert answered == texts[..|answered|];
      forall p | p in planned
        ensures p.hash in vectors <==> HasAnswer(before, model, answered, p)
      {
        VectorsAreAnswers(planned, known, missing, vectors, before, model, hash, |answered|, p);
      }
      KeptIsPlanned(planned, before, model, answered);
      RowsStayTrue(rows, planned, Kept(planned, before, model, answered), model, hash, embed);
      InsertAll(planned, model, vectors, embed, before, answered);
    }

    /**
     * One run over the first `limit` of the pending items. `asked` is what the
     * provider was asked to embed. When it fails nothing is written; a chunk
     * whose text it left unanswered is not written; every chunk that is
     * written has the vector of its own text.
     */
    method EmbedPendingItems(
      pending: seq<Item>, limit: nat, model: string, chunker: Item -> seq<string>, hash: string -> string,
      provide: seq<string> -> Result<seq<Vector>, ()>, ghost embed: (string, string) -> Vector)
      returns (r: Result<Report, ()>, asked: seq<string>)
      requires IsInjective(hash) && RowsTrue(rows, hash, embed) && IsTruthful(provide, model, embed)
      modifies this
      ensures RowsTrue(rows, hash, embed)
      ensures var batch := if |pending| <= limit then pending else pending[..limit];
        var planned := PlanAll(batch, chunker, hash);
        && AskedOnce(asked, planned, old(rows), model)
        && (planned == [] ==> r == Ok(Report(0, 0, 0, false)) && rows == old(rows))
        && (planned != [] && provide(asked).Err? ==> r.Err? && rows == old(rows))
        && (planned != [] && provide(asked).Ok? ==>
              var answers := |provide(asked).value|;
              && r == Ok(Report(|batch|, |planned|, |planned| - |asked|, |pending| > limit))
              && rows == old(rows)
                  + RowsFor(Kept(planned, old(rows), model, Prefix(asked, answers)), model, embed)
              && (answers >= |asked| ==> rows == old(rows) + RowsFor(planned, model, embed)))
    {
      hide PlanAll, FindKnown, AskedOnce, IsInjective, RowsTrue, VectorsTrue, RowsFor, Kept, IsTruthful;
      var batch := if |pending| <= limit then pending else pending[..limit];
      var planned := PlanAll(batch, chunker, hash);
      if planned == [] {
        NothingAsked(planned, rows, model, embed);
        return Ok(Report(0, 0, 0, false)), [];
      }
      ghost var before := rows;
      var known := FindKnown(rows, model, planned);
      KnownIsTrue(rows, planned, model, hash, embed);
      var missing := UniqueByHash(planned, known.Keys);
      asked := Apply((p: Planned) => p.content, missing);
      MissingAskedOnce(planned, known, missing, asked, rows, model, hash);
      var computed := provide(asked);
      if computed.Err? {
        return Err(()), asked;
      }
      TruthfulAnswers(provide, missing, model, embed);
      WriteAnswers(planned, known, missing, computed.value, model, hash, embed);
      if |computed.value| >= |asked| {
        AllAnswered(asked, planned, before, model);
        KeptAll(planned, before, model, asked);
      }
      return Ok(Report(|batch|, |planned|, |planned| - |missing|, |pending| > limit)), asked;
    }
  }

  lemma TruthfulAnswers(
    provide: seq<string> -> Result<seq<Vector>, ()>, missing: seq<Planned>, model: string,
    embed: (string, string) -> Vector)
    requires IsTruthful(provide, model, embed)
    requires provide(Apply((p: Planned) => p.content, missing)).Ok?
    ensures var computed := provide(Apply((p: Planned) => p.content, missing)).value;
      forall i :: 0 <= i < |missing| && i < |computed| ==> computed[i] == embed(model, missing[i].content)
  {
  }

  /** The first `n` texts, or all if there are fewer. */
  function Prefix(texts: seq<string>, n: nat): seq<string> {
    if |texts| <= n then texts else texts[..n]
  }

  lemma AllAnswered(asked: seq<string>, planned: seq<Planned>, rows: seq<Stored>, model: string)
    requires AskedOnce(asked, planned, rows, model)
    ensures forall i :: 0 <= i < |planned| ==> HasAnswer(rows, model, asked, planned[i])
  {
    hide HasVector;
    forall i | 0 <= i < |planned|
      ensures HasAnswer(rows, model, asked, planned[i])
    {
      assert planned[i] in planned;
    }
  }

  /** No text is asked for twice, none that was stored, and every other one once. */
  ghost predicate AskedOnce(texts: seq<string>, planned: seq<Planned>, rows: seq<Stored>, model: string) {
    && (forall i, j :: 0 <= i < j < |texts| ==> texts[i] != texts[j])
    && (forall text :: text in texts <==>
          (exists p :: p in planned && p.content == text && !HasVector(rows, model, p.hash)))
  }

  lemma NothingAsked(planned: seq<Planned>, rows: seq<Stored>, model: string, embed: (string, string) -> Vector)
    requires planned == []
    ensures AskedOnce([], planned, rows, model) && RowsFor(planned, model, embed) == []
  {
  }

  /** One text for each hash that no stored row has a vector for. */
  lemma MissingAskedOnce(
    planned: seq<Planned>, known: map<string, Vector>, missing: seq<Planned>, asked: seq<string>,
    rows: seq<Stored>, model: string, hash: string -> string)
    requires IsInjective(hash) && known == FindKnown(rows, model, planned)
    requires forall i :: 0 <= i < |planned| ==> planned[i].hash == hash(planned[i].content)
    requires asked == Apply((p: Planned) => p.content, missing)
    requires forall p :: p in missing ==> p in planned && p.hash !in known.Keys
    requires forall i, j :: 0 <= i < j < |missing| ==> missing[i].hash != missing[j].hash
    requires forall p :: p in planned && p.hash !in known.Keys ==>
      exists i :: 0 <= i < |missing| && missing[i].hash == p.hash
    ensures AskedOnce(asked, planned, rows, model)
  {
    hide FindKnown;
    forall p | p in planned
      ensures p.hash in known <==> HasVector(rows, model, p.hash)
    {
      if p.hash in known {
        assert IsKnown(rows, model, p.hash, known[p.hash]);
      }
    }
    forall i, j | 0 <= i < j < |asked|
      ensures asked[i] != asked[j]
    {
      assert missing[i] in planned && missing[j] in planned;
    }
    forall text
      ensures text in asked <==> exists p :: p in planned && p.content == text && !HasVector(rows, model, p.hash)
    {
      if text in asked {
        var i :| 0 <= i < |asked| && asked[i] == text;
        assert missing[i] in missing;
      }
      if p :| p in planned && p.content == text && !HasVector(rows, model, p.hash) {
        var i :| 0 <= i < |missing| && missing[i].hash == p.hash;
        assert missing[i] in missing;
        assert asked[i] == text;
      }
    }
  }

  predicate HasVector(rows: seq<Stored>, model: string, hash: string) {
    exists i :: 0 <= i < |rows| && rows[i].hash == Some(hash) && rows[i].model == model
  }

  /** The first chunk of each hash that is not known. */
  method UniqueByHash(chunks: seq<Planned>, known: set<string>) returns (unique: seq<Planned>)
    ensures forall p :: p in unique ==> p in chunks && p.hash !in known
    ensures forall i, j :: 0 <= i < j < |unique| ==> unique[i].hash != unique[j].hash
    ensures forall p :: p in chunks && p.hash !in known ==> exists i :: 0 <= i < |unique| && unique[i].hash == p.hash
  {
    var seen: set<string> := {};
    unique := [];
    for i := 0 to |chunks|
      invariant seen == set p | p in unique :: p.hash
      invariant forall p :: p in unique ==> p in chunks && p.hash !in known
      invariant forall i, j :: 0 <= i < j < |unique| ==> unique[i].hash != unique[j].hash
      invariant forall p :: p in chunks[..i] && p.hash !in known ==> p.hash in seen
    {
      if chunks[i].hash !in known && chunks[i].hash !in seen {
        seen := seen + {chunks[i].hash};
        unique := unique + [chunks[i]];
      }
    }
  }
}
