/** Batched embedding with a per-text fallback. The service's replies are parameters: any
    call may fail, and a batch call may even reply with too few or too many vectors. */
module Embeddings {
  import opened Text
  import opened Wrappers

  type Vector = seq<real>

  datatype Reply = Vectors(vectors: seq<Vector>) | Failed

  /** What the embedder works with: the answer to the call for a batch, by the batch's number,
      and to the call for a single text, by the text's position; the zero vector; and which
      texts count as empty. */
  datatype Service = Service(batch: nat -> Reply, single: nat -> Option<Vector>, zero: Vector, blank: string -> bool)

  datatype EmbedError = ZeroStep

  const MAX_BATCH := 100

  predicate IsBlank(text: string) {
    text == "" || Strip(text) == ""
  }

  /** Blank is a text of nothing but blanks. */
  lemma BlankMeans(text: string)
    ensures IsBlank(text) <==> Blank(text)
  {
    var left, right := StripMeans(text);
  }

  function NonBlank(service: Service, batch: seq<string>): (r: seq<string>)
    ensures |r| <= |batch|
    decreases |batch|
  {
    if batch == [] then []
    else
      var before := NonBlank(service, batch[..|batch| - 1]);
      if service.blank(batch[|batch| - 1]) then before else before + [batch[|batch| - 1]]
  }

  /** The first `n` texts one by one: zero for a blank text and for a failed call. */
  function Sequential(batch: seq<string>, offset: nat, service: Service, n: nat): (r: seq<Vector>)
    requires n <= |batch|
    ensures |r| == n
  {
    if n == 0 then []
    else
      var reply := service.single(offset + n - 1);
      Sequential(batch, offset, service, n - 1)
      + [if service.blank(batch[n - 1]) || reply.None? then service.zero else reply.value]
  }

  /** The vectors of a batch put back among zeros for the blank texts. */
  function Merged(batch: seq<string>, vectors: seq<Vector>, service: Service, n: nat): (r: seq<Vector>)
    requires n <= |batch| && |NonBlank(service, batch[..n])| <= |vectors|
    ensures |r| == n
  {
    if n == 0 then []
    else
      assert batch[..n][..n - 1] == batch[..n - 1];
      Merged(batch, vectors, service, n - 1)
      + [if service.blank(batch[n - 1]) then service.zero else vectors[|NonBlank(service, batch[..n - 1])|]]
  }

  function Zeros(service: Service, n: nat): (r: seq<Vector>)
    ensures |r| == n && forall i | 0 <= i < n :: r[i] == service.zero
  {
    seq(n, _ => service.zero)
  }

  /** A batch's vectors. Without blank texts the reply is passed on as it came. */
  function Batch(batch: seq<string>, offset: nat, service: Service, number: nat): seq<Vector> {
    var reply := service.batch(number);
    var wanted := |NonBlank(service, batch)|;
    assert batch[..|batch|] == batch;
    if wanted == 0 then Zeros(service, |batch|)
    else if reply.Failed? then Sequential(batch, offset, service, |batch|)
    else if wanted == |batch| then reply.vectors
    else if |reply.vectors| < wanted then Sequential(batch, offset, service, |batch|)
    else Merged(batch, reply.vectors, service, |batch|)
  }

  function Slice(texts: seq<string>, from: nat, size: nat): (r: seq<string>)
    requires from <= |texts|
    ensures |r| == if from + size <= |texts| then size else |texts| - from
    ensures forall i | 0 <= i < |r| :: r[i] == texts[from + i]
  {
    if from + size <= |texts| then texts[from..from + size] else texts[from..]
  }

  /** The vectors so far, `acc`, and those of the batches from one on. */
  function Embedded(texts: seq<string>, size: nat, service: Service, acc: seq<Vector>, from: nat, number: nat):
    seq<Vector>
    requires size > 0
    decreases |texts| - from
  {
    if from >= |texts| then acc
    else
      var vectors := Batch(Slice(texts, from, size), from, service, number);
      Embedded(texts, size, service, acc + vectors, from + size, number + 1)
  }

  function Step(batchSize: int): int {
    if batchSize <= MAX_BATCH then batchSize else MAX_BATCH
  }

  /** A step of zero is an error; a negative one makes no batch at all. */
  function Embedding(texts: seq<string>, batchSize: int, service: Service): Result<seq<Vector>, EmbedError> {
    var size := Step(batchSize);
    if texts == [] || size < 0 then Success([])
    else if size == 0 then Failure(ZeroStep)
    else Success(Embedded(texts, size, service, [], 0, 0))
  }

  // ---------------------------------------------------------------- the loops

  lemma TakeOne<T>(s: seq<T>, i: nat)
    requires i < |s|
    ensures s[..i + 1] == s[..i] + [s[i]] && s[..i + 1][..i] == s[..i]
  {
  }

  /** `_sequential_embed` */
  method SequentialEmbed(batch: seq<string>, offset: nat, service: Service) returns (embeddings: seq<Vector>)
    ensures embeddings == Sequential(batch, offset, service, |batch|)
  {
    embeddings := [];
    for i := 0 to |batch|
      invariant embeddings == Sequential(batch, offset, service, i)
    {
      if service.blank(batch[i]) {
        embeddings := embeddings + [service.zero];
        continue;
      }
      var reply := service.single(offset + i);
      if reply.Some? {
        embeddings := embeddings + [reply.value];
      } else {
        embeddings := embeddings + [service.zero];
      }
    }
  }

  /** The loop that sorts a batch into texts to embed and positions of blank ones. */
  method SplitBlank(service: Service, batch: seq<string>) returns (nonEmpty: seq<string>, emptyPositions: seq<nat>)
    ensures nonEmpty == NonBlank(service, batch)
    ensures forall i: nat :: i in emptyPositions <==> i < |batch| && service.blank(batch[i])
    ensures |nonEmpty| + |emptyPositions| == |batch|
  {
    nonEmpty, emptyPositions := [], [];
    for idx := 0 to |batch|
      invariant nonEmpty == NonBlank(service, batch[..idx])
      invariant forall i: nat :: i in emptyPositions <==> i < idx && service.blank(batch[i])
      invariant |nonEmpty| + |emptyPositions| == idx
    {
      TakeOne(batch, idx);
      if service.blank(batch[idx]) {
        emptyPositions := emptyPositions + [idx];
      } else {
        nonEmpty := nonEmpty + [batch[idx]];
      }
    }
    assert batch[..|batch|] == batch;
  }

  lemma {:induction false} NonBlankGrows(service: Service, batch: seq<string>, n: nat)
    requires n <= |batch|
    ensures |NonBlank(service, batch[..n])| <= |NonBlank(service, batch)|
    decreases |batch| - n
  {
    if n < |batch| {
      TakeOne(batch, n);
      NonBlankGrows(service, batch, n + 1);
    } else {
      assert batch[..n] == batch;
    }
  }

  /** The loop that puts zero vectors back; `None` when the reply is too short to index. */
  method Reinsert(batch: seq<string>, emptyPositions: seq<nat>, embeddings: seq<Vector>, service: Service)
    returns (r: Option<seq<Vector>>)
    requires forall i: nat :: i in emptyPositions <==> i < |batch| && service.blank(batch[i])
    ensures r.Some? <==> |NonBlank(service, batch)| <= |embeddings|
    ensures r.Some? ==> batch[..|batch|] == batch && r.value == Merged(batch, embeddings, service, |batch|)
  {
    var result: seq<Vector> := [];
    var nonEmptyIdx := 0;
    for idx := 0 to |batch|
      invariant nonEmptyIdx == |NonBlank(service, batch[..idx])| <= |embeddings|
      invariant result == Merged(batch, embeddings, service, idx)
    {
      TakeOne(batch, idx);
      if idx in emptyPositions {
        result := result + [service.zero];
      } else {
        if nonEmptyIdx >= |embeddings| {
          NonBlankGrows(service, batch, idx + 1);
          return None;
        }
        result := result + [embeddings[nonEmptyIdx]];
        nonEmptyIdx := nonEmptyIdx + 1;
      }
    }
    assert batch[..|batch|] == batch;
    r := Some(result);
  }

  /** `_process_batch` */
  method ProcessBatch(batch: seq<string>, offset: nat, service: Service, number: nat)
    returns (r: seq<Vector>)
    ensures r == Batch(batch, offset, service, number)
  {
    var nonEmpty, emptyPositions := SplitBlank(service, batch);
    if nonEmpty == [] {
      return Zeros(service, |batch|);
    }
    var reply := service.batch(number);
    if reply.Vectors? {
      if emptyPositions != [] {
        var result := Reinsert(batch, emptyPositions, reply.vectors, service);
        if result.Some? {
          return result.value;
        }
      } else {
        return reply.vectors;
      }
    }
    r := SequentialEmbed(batch, offset, service);
  }

  /** From these vectors on, the remaining batches complete the result. */
  predicate LeadsTo(texts: seq<string>, size: nat, service: Service, acc: seq<Vector>, from: nat, number: nat,
                    r: seq<Vector>)
    requires size > 0
  {
    Embedded(texts, size, service, acc, from, number) == r
  }

  lemma OneMoreBatch(texts: seq<string>, size: nat, service: Service, acc: seq<Vector>, from: nat, number: nat,
                     vectors: seq<Vector>, r: seq<Vector>)
    requires size > 0 && from < |texts| && LeadsTo(texts, size, service, acc, from, number, r)
    requires vectors == Batch(Slice(texts, from, size), from, service, number)
    ensures LeadsTo(texts, size, service, acc + vectors, from + size, number + 1, r)
  {
  }

  /** The loop over the batches. */
  method EmbedBatches(texts: seq<string>, size: nat, service: Service) returns (embeddings: seq<Vector>)
    requires size > 0
    ensures embeddings == Embedded(texts, size, service, [], 0, 0)
  {
    embeddings := [];
    var i, number := 0, 0;
    ghost var r := Embedded(texts, size, service, [], 0, 0);
    while i < |texts|
      invariant LeadsTo(texts, size, service, embeddings, i, number, r)
    {
      var batch := Slice(texts, i, size);
      var batchEmbeddings := ProcessBatch(batch, i, service, number);
      OneMoreBatch(texts, size, service, embeddings, i, number, batchEmbeddings, r);
      embeddings := embeddings + batchEmbeddings;
      i, number := i + size, number + 1;
    }
  }

  /** `GeminiEmbedder.embed_text` */
  method EmbedText(texts: seq<string>, batchSize0: int,
                   batch: nat -> Reply, single: nat -> Option<Vector>, zero: Vector)
    returns (r: Result<seq<Vector>, EmbedError>)
    ensures r == Embedding(texts, batchSize0, Service(batch, single, zero, IsBlank))
  {
    if texts == [] {
      return Success([]);
    }
    var batchSize := if batchSize0 <= MAX_BATCH then batchSize0 else MAX_BATCH;
    if batchSize == 0 {
      return Failure(ZeroStep);
    }
    if batchSize < 0 {
      return Success([]);
    }
    var embeddings := EmbedBatches(texts, batchSize, Service(batch, single, zero, IsBlank));
    r := Success(embeddings);
  }

  // ---------------------------------------------------------------- theorems

  /** A batch comes back with one vector per text, whatever the service replies, unless it
      has no blank text and the reply is of another length, which nobody checks. */
  lemma BatchKeepsItsLength(batch: seq<string>, offset: nat, service: Service, number: nat)
    ensures |Batch(batch, offset, service, number)| == |batch|
       <==> (batch != [] && NonBlank(service, batch) == batch && service.batch(number).Vectors?
             ==> |service.batch(number).vectors| == |batch|)
  {
    NonBlankIsAll(service, batch);
  }

  /** Two texts, a reply with one vector: one vector comes back. */
  lemma ShortReplyIsPassedOn(batch: seq<string>, offset: nat, service: Service, number: nat, v: Vector)
    requires |batch| == 2 && !service.blank(batch[0]) && !service.blank(batch[1])
    requires service.batch(number) == Vectors([v])
    ensures Batch(batch, offset, service, number) == [v]
  {
    NonBlankIsAll(service, batch);
  }

  lemma {:induction false} NonBlankIsAll(service: Service, batch: seq<string>)
    ensures |NonBlank(service, batch)| == |batch| <==> NonBlank(service, batch) == batch
    ensures NonBlank(service, batch) == batch <==> forall i | 0 <= i < |batch| :: !service.blank(batch[i])
    decreases |batch|
  {
    if batch != [] {
      var init := batch[..|batch| - 1];
      NonBlankIsAll(service, init);
      assert batch == init + [batch[|batch| - 1]];
    }
  }

  /** The call for one text, if it succeeds, returns the model's vector. */
  predicate FaithfulCall(service: Service, model: string -> Vector, text: string, i: nat) {
    service.single(i).Some? ==> service.single(i).value == model(text)
  }

  /** The call for a batch, if it succeeds, returns the model's vectors in order. */
  predicate FaithfulBatch(service: Service, model: string -> Vector, batch: seq<string>, number: nat) {
    service.batch(number).Vectors? ==> service.batch(number).vectors == ModelVectors(model, NonBlank(service, batch))
  }

  ghost predicate Faithful(service: Service, model: string -> Vector, texts: seq<string>, size: nat) {
    && (forall i | 0 <= i < |texts| :: FaithfulCall(service, model, texts[i], i))
    && (forall number: nat | number * size < |texts| ::
          FaithfulBatch(service, model, Slice(texts, number * size, size), number))
  }

  function ModelVectors(model: string -> Vector, texts: seq<string>): (r: seq<Vector>)
    ensures |r| == |texts| && forall i | 0 <= i < |texts| :: r[i] == model(texts[i])
  {
    seq(|texts|, i requires 0 <= i < |texts| => model(texts[i]))
  }

  /** The right vector for the text at a place: the model's, or zero if the text is blank, or
      zero if both the call for its batch and its own call failed. */
  predicate RightVector(service: Service, model: string -> Vector, text: string, i: nat, number: nat, v: Vector) {
    if service.blank(text) then v == service.zero
    else v == model(text) || (v == service.zero && service.batch(number).Failed? && service.single(i).None?)
  }

  lemma {:induction false} MergedIsRight(service: Service, batch: seq<string>, model: string -> Vector, n: nat)
    requires n <= |batch|
    ensures |NonBlank(service, batch[..n])| <= |ModelVectors(model, NonBlank(service, batch))|
    ensures forall k | 0 <= k < n ::
              Merged(batch, ModelVectors(model, NonBlank(service, batch)), service, n)[k] ==
                if service.blank(batch[k]) then service.zero else model(batch[k])
  {
    NonBlankGrows(service, batch, n);
    if n > 0 {
      TakeOne(batch, n - 1);
      MergedIsRight(service, batch, model, n - 1);
      if !service.blank(batch[n - 1]) { NonBlankAt(service, batch, n - 1); }
    }
  }

  /** A text that is not blank is found among those that are not after those before it. */
  lemma {:induction false} NonBlankAt(service: Service, batch: seq<string>, k: nat)
    requires k < |batch| && !service.blank(batch[k])
    ensures |NonBlank(service, batch[..k])| < |NonBlank(service, batch)|
    ensures NonBlank(service, batch)[|NonBlank(service, batch[..k])|] == batch[k]
    decreases |batch|
  {
    var init := batch[..|batch| - 1];
    if k < |init| {
      NonBlankAt(service, init, k);
      assert init[..k] == batch[..k];
    } else {
      assert init == batch[..k];
    }
  }

  lemma {:induction false} SequentialIsRight(batch: seq<string>, offset: nat, service: Service,
                                             model: string -> Vector, n: nat)
    requires n <= |batch|
    requires forall k | 0 <= k < |batch| && service.single(offset + k).Some? ::
               service.single(offset + k).value == model(batch[k])
    ensures forall k | 0 <= k < n :: Sequential(batch, offset, service, n)[k] ==
              if service.blank(batch[k]) || service.single(offset + k).None? then service.zero else model(batch[k])
  {
    if n > 0 { SequentialIsRight(batch, offset, service, model, n - 1); }
  }

  /** Every vector of a batch is right for its text. */
  predicate AllRight(service: Service, model: string -> Vector, batch: seq<string>, offset: nat, number: nat,
                     r: seq<Vector>) {
    |r| == |batch| && forall k | 0 <= k < |batch| :: RightVector(service, model, batch[k], offset + k, number, r[k])
  }

  lemma ZerosAreRight(service: Service, batch: seq<string>, offset: nat, number: nat, model: string -> Vector)
    requires NonBlank(service, batch) == []
    ensures AllRight(service, model, batch, offset, number, Zeros(service, |batch|))
  {
    forall k | 0 <= k < |batch| ensures service.blank(batch[k]) {
      if !service.blank(batch[k]) { NonBlankAt(service, batch, k); }
    }
  }

  lemma FallbackIsRight(service: Service, batch: seq<string>, offset: nat, number: nat, model: string -> Vector)
    requires forall k | 0 <= k < |batch| :: FaithfulCall(service, model, batch[k], offset + k)
    requires service.batch(number).Failed?
    ensures AllRight(service, model, batch, offset, number, Sequential(batch, offset, service, |batch|))
  {
    forall k | 0 <= k < |batch| && service.single(offset + k).Some?
      ensures service.single(offset + k).value == model(batch[k])
    {
      assert FaithfulCall(service, model, batch[k], offset + k);
    }
    SequentialIsRight(batch, offset, service, model, |batch|);
  }

  lemma ReplyIsRight(service: Service, batch: seq<string>, offset: nat, number: nat, model: string -> Vector)
    requires FaithfulBatch(service, model, batch, number)
    requires service.batch(number).Vectors? && NonBlank(service, batch) != []
    ensures AllRight(service, model, batch, offset, number, Batch(batch, offset, service, number))
  {
    assert batch[..|batch|] == batch;
    NonBlankIsAll(service, batch);
    MergedIsRight(service, batch, model, |batch|);
  }

  lemma BatchIsRight(service: Service, batch: seq<string>, offset: nat, number: nat, model: string -> Vector)
    requires forall k | 0 <= k < |batch| :: FaithfulCall(service, model, batch[k], offset + k)
    requires FaithfulBatch(service, model, batch, number)
    ensures AllRight(service, model, batch, offset, number, Batch(batch, offset, service, number))
  {
    if NonBlank(service, batch) == [] {
      ZerosAreRight(service, batch, offset, number, model);
    } else if service.batch(number).Failed? {
      FallbackIsRight(service, batch, offset, number, model);
    } else {
      ReplyIsRight(service, batch, offset, number, model);
    }
  }

  lemma Multiples(d: int, size: int)
    requires size > 0
    ensures d >= 1 ==> d * size >= size
    ensures d <= -1 ==> d * size <= -size
  {
  }

  lemma BatchNumber(i: nat, from: nat, number: nat, size: nat)
    requires size > 0 && from == number * size && from <= i < from + size
    ensures i / size == number
  {
    var q := i / size;
    assert i == q * size + i % size;
    assert (q - number) * size == q * size - from;
    Multiples(q - number, size);
  }

  /** The right vector at a place of the whole result, whose batch is found by division. */
  predicate RightAt(service: Service, model: string -> Vector, texts: seq<string>, size: nat, r: seq<Vector>, i: nat)
    requires size > 0 && i < |texts|
  {
    i < |r| && RightVector(service, model, texts[i], i, i / size, r[i])
  }

  predicate RightUpTo(service: Service, model: string -> Vector, texts: seq<string>, size: nat,
                      r: seq<Vector>, n: nat)
    requires size > 0 && n <= |texts|
  {
    forall i | 0 <= i < n :: RightAt(service, model, texts, size, r, i)
  }

  lemma BatchInPlace(service: Service, model: string -> Vector, texts: seq<string>, size: nat,
                     acc: seq<Vector>, from: nat, number: nat)
    requires size > 0 && Faithful(service, model, texts, size) && from == number * size && from < |texts|
    requires |acc| == from && RightUpTo(service, model, texts, size, acc, from)
    ensures var batch := Slice(texts, from, size);
            var r := acc + Batch(batch, from, service, number);
            |r| == from + |batch| && RightUpTo(service, model, texts, size, r, |r|)
  {
    var batch := Slice(texts, from, size);
    var vectors := Batch(batch, from, service, number);
    assert FaithfulBatch(service, model, Slice(texts, number * size, size), number);
    forall k | 0 <= k < |batch| ensures FaithfulCall(service, model, batch[k], from + k) {
      assert FaithfulCall(service, model, texts[from + k], from + k);
    }
    BatchIsRight(service, batch, from, number, model);
    forall i | 0 <= i < from + |batch| ensures RightAt(service, model, texts, size, acc + vectors, i) {
      if i < from {
        assert RightAt(service, model, texts, size, acc, i);
      } else {
        assert RightVector(service, model, batch[i - from], from + (i - from), number, vectors[i - from]);
        BatchNumber(i, from, number, size);
      }
    }
  }

  lemma NextBatch(from: nat, number: nat, size: nat)
    requires from == number * size
    ensures from + size == (number + 1) * size
  {
  }

  lemma BatchLeadsOn(service: Service, model: string -> Vector, texts: seq<string>, size: nat,
                     acc: seq<Vector>, from: nat, number: nat, r: seq<Vector>) returns (more: seq<Vector>)
    requires size > 0 && Faithful(service, model, texts, size) && from == number * size && from < |texts|
    requires |acc| == from && RightUpTo(service, model, texts, size, acc, from)
    requires LeadsTo(texts, size, service, acc, from, number, r)
    ensures |more| == (if from + size <= |texts| then from + size else |texts|)
    ensures RightUpTo(service, model, texts, size, more, |more|)
    ensures LeadsTo(texts, size, service, more, from + size, number + 1, r)
  {
    var vectors := Batch(Slice(texts, from, size), from, service, number);
    BatchInPlace(service, model, texts, size, acc, from, number);
    OneMoreBatch(texts, size, service, acc, from, number, vectors, r);
    more := acc + vectors;
  }

  lemma NothingLeft(texts: seq<string>, size: nat, service: Service, acc: seq<Vector>, from: nat, number: nat,
                    r: seq<Vector>)
    requires size > 0 && from >= |texts| && LeadsTo(texts, size, service, acc, from, number, r)
    ensures acc == r
  {
  }

  lemma {:induction false} EmbeddedIsRight(service: Service, model: string -> Vector, texts: seq<string>, size: nat,
                                           acc: seq<Vector>, from: nat, number: nat, r: seq<Vector>)
    requires size > 0 && Faithful(service, model, texts, size) && from == number * size && from < |texts|
    requires |acc| == from && RightUpTo(service, model, texts, size, acc, from)
    requires LeadsTo(texts, size, service, acc, from, number, r)
    ensures |r| == |texts| && RightUpTo(service, model, texts, size, r, |texts|)
    decreases |texts| - from
  {
    var more := BatchLeadsOn(service, model, texts, size, acc, from, number, r);
    if from + size < |texts| {
      NextBatch(from, number, size);
      EmbeddedIsRight(service, model, texts, size, more, from + size, number + 1, r);
    } else {
      NothingLeft(texts, size, service, more, from + size, number + 1, r);
    }
  }

  /** One vector per text, in order: zero for a blank text, otherwise the model's, or zero only
      if the call for the text's batch and then its own call failed. */
  lemma OneVectorPerText(texts: seq<string>, batchSize: int, service: Service, model: string -> Vector)
    requires batchSize >= 1 && Faithful(service, model, texts, Step(batchSize))
    ensures var r := Embedding(texts, batchSize, service);
            r.Success? && |r.value| == |texts| && RightUpTo(service, model, texts, Step(batchSize), r.value, |texts|)
  {
    if texts != [] {
      var r := Embedding(texts, batchSize, service).value;
      EmbeddedIsRight(service, model, texts, Step(batchSize), [], 0, 0, r);
    }
  }

  function Vectorised(texts: seq<string>, service: Service, model: string -> Vector): (r: seq<Vector>)
    ensures |r| == |texts|
    ensures forall i | 0 <= i < |r| :: r[i] == if service.blank(texts[i]) then service.zero else model(texts[i])
  {
    seq(|texts|, i requires 0 <= i < |texts| => if service.blank(texts[i]) then service.zero else model(texts[i]))
  }

  /** Without failed batch calls the batch size does not show. */
  lemma BatchSizeDoesNotShow(texts: seq<string>, batchSize: int, service: Service, model: string -> Vector)
    requires batchSize >= 1 && Faithful(service, model, texts, Step(batchSize))
    requires forall number: nat :: service.batch(number).Vectors?
    ensures Embedding(texts, batchSize, service) == Success(Vectorised(texts, service, model))
  {
    OneVectorPerText(texts, batchSize, service, model);
    AllRightWithoutFailures(service, model, texts, Step(batchSize), Embedding(texts, batchSize, service).value);
  }

  lemma AllRightWithoutFailures(service: Service, model: string -> Vector, texts: seq<string>, size: nat,
                                r: seq<Vector>)
    requires size > 0 && |r| == |texts| && RightUpTo(service, model, texts, size, r, |texts|)
    requires forall number: nat :: service.batch(number).Vectors?
    ensures r == Vectorised(texts, service, model)
  {
    var v := Vectorised(texts, service, model);
    forall i | 0 <= i < |texts| ensures r[i] == v[i] {
      assert RightAt(service, model, texts, size, r, i);
      RightWithoutFailures(service, model, texts, size, r, i);
    }
  }

  lemma RightWithoutFailures(service: Service, model: string -> Vector, texts: seq<string>, size: nat,
                             r: seq<Vector>, i: nat)
    requires size > 0 && i < |texts| && RightAt(service, model, texts, size, r, i)
    requires forall number: nat :: service.batch(number).Vectors?
    ensures r[i] == Vectorised(texts, service, model)[i]
  {
  }
}
