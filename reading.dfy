/** The reader itself: built from the three loads, then a forward-only cursor over the
    triples that resolves one triple per `__next__` call into a one-element batch. */
module Reading {
  import opened Types
  import opened Loaders

  /** `tensorize_triples` bound to the query and document tokenizers: the query batch,
      the positive batch, the negative batch and the batch size in, an opaque batch out. */
  type Tensorizer<Batch> = (seq<string>, seq<string>, seq<string>, int) -> Batch

  /** The three texts one triple resolves to. */
  datatype Texts = Texts(query: string, positive: string, negative: string)

  /** The lookups `queries[q], collection[pos], collection[neg]`, evaluated left to right,
      so the first missing id is the one reported. */
  function Resolve(t: Triple, queries: map<int, string>, collection: map<int, string>): Result<Texts>
  {
    if t.qid !in queries then Err(KeyError(t.qid))
    else if t.pos !in collection then Err(KeyError(t.pos))
    else if t.neg !in collection then Err(KeyError(t.neg))
    else Ok(Texts(queries[t.qid], collection[t.pos], collection[t.neg]))
  }

  /** `collate`: the three batches must each hold exactly one text; they go to the
      tensorizer with batch size 1. */
  function Collate<Batch>(tensorize: Tensorizer<Batch>, queries: seq<string>, positives: seq<string>,
                          negatives: seq<string>): (r: Result<Batch>)
    ensures r.Ok? <==> |queries| == 1 && |positives| == 1 && |negatives| == 1
    ensures r.Ok? ==> r.value == tensorize(queries, positives, negatives, 1)
    ensures r.Err? ==> r.error == AssertionError
  {
    if |queries| == |positives| == |negatives| == 1 then Ok(tensorize(queries, positives, negatives, 1))
    else Err(AssertionError)
  }

  function Min(a: int, b: int): int
  {
    if a <= b then a else b
  }

  /** One `__next__` call with the cursor at `pos`: the cursor afterwards and what the
      call returns or raises. The cursor moves before the ids are looked up, so a
      missing id is reported with the cursor already past its triple. */
  function Step<Batch>(triples: seq<Triple>, queries: map<int, string>, collection: map<int, string>,
                       tensorize: Tensorizer<Batch>, pos: nat): (res: (nat, Result<Batch>))
    requires pos <= |triples|
    ensures res.0 == if pos < |triples| then pos + 1 else pos
    ensures res.1 == Err(StopIteration) <==> pos == |triples|
    ensures res.1 != Err(AssertionError)
    ensures pos < |triples| ==>
              var t := triples[pos];
              && (res.1.Ok? <==> t.qid in queries && t.pos in collection && t.neg in collection)
              && (res.1.Ok? ==> res.1.value == tensorize([queries[t.qid]], [collection[t.pos]], [collection[t.neg]], 1))
              && (t.qid !in queries ==> res.1 == Err(KeyError(t.qid)))
              && (t.qid in queries && t.pos !in collection ==> res.1 == Err(KeyError(t.pos)))
              && (t.qid in queries && t.pos in collection && t.neg !in collection ==> res.1 == Err(KeyError(t.neg)))
  {
    var offset, endpos := pos, Min(pos + 1, |triples|);
    if offset + 1 > |triples| then (endpos, Err(StopIteration))
    else
      var out := match Resolve(triples[offset], queries, collection)
        case Err(e) => Err(e)
        case Ok(x) => Collate(tensorize, [x.query], [x.positive], [x.negative]);
      (endpos, out)
  }

  /** The outcomes of `k` successive `__next__` calls from cursor `pos`, with the cursor
      after them. */
  function Run<Batch>(triples: seq<Triple>, queries: map<int, string>, collection: map<int, string>,
                      tensorize: Tensorizer<Batch>, pos: nat, k: nat): (nat, seq<Result<Batch>>)
    requires pos <= |triples|
    decreases k
  {
    if k == 0 then (pos, [])
    else
      var step := Step(triples, queries, collection, tensorize, pos);
      var rest := Run(triples, queries, collection, tensorize, step.0, k - 1);
      (rest.0, [step.1] + rest.1)
  }

  /** Calls from cursor `pos`: the i-th call resolves triple `pos + i` while there is one
      (whether or not its lookups succeed), every call after the last triple raises
      StopIteration, and the cursor stops at the end. From a fresh reader exactly
      `|triples|` calls do not raise StopIteration. */
  lemma {:induction false} RunOutcomes<Batch>(triples: seq<Triple>, queries: map<int, string>,
                                              collection: map<int, string>, tensorize: Tensorizer<Batch>,
                                              pos: nat, k: nat)
    requires pos <= |triples|
    ensures Run(triples, queries, collection, tensorize, pos, k).0 == Min(pos + k, |triples|)
    ensures |Run(triples, queries, collection, tensorize, pos, k).1| == k
    ensures forall i :: 0 <= i < k ==>
              (Run(triples, queries, collection, tensorize, pos, k).1[i] == Err(StopIteration) <==>
               pos + i >= |triples|)
    ensures forall i :: 0 <= i < k && pos + i < |triples| ==>
              Run(triples, queries, collection, tensorize, pos, k).1[i] ==
              Step(triples, queries, collection, tensorize, pos + i).1
    decreases k
  {
    if k > 0 {
      var step := Step(triples, queries, collection, tensorize, pos);
      RunOutcomes(triples, queries, collection, tensorize, step.0, k - 1);
      var outs := Run(triples, queries, collection, tensorize, pos, k).1;
      var rest := Run(triples, queries, collection, tensorize, step.0, k - 1).1;
      assert outs == [step.1] + rest;
      forall i | 1 <= i < k
        ensures outs[i] == rest[i - 1]
      {
      }
    }
  }

  /** The reader object. The three tables are set once, when the reader is opened;
      iteration moves `position` and nothing else. */
  class ValidReader<Batch> {
    var triples: seq<Triple>
    var queries: map<int, string>
    var collection: map<int, string>
    var tensorize: Tensorizer<Batch>
    var position: nat

    ghost predicate Valid()
      reads this
    {
      position <= |triples|
    }

    constructor (triples: seq<Triple>, queries: map<int, string>, collection: map<int, string>,
                 tensorize: Tensorizer<Batch>)
      ensures Valid() && position == 0
      ensures this.triples == triples && this.queries == queries && this.collection == collection
      ensures this.tensorize == tensorize
    {
      this.triples := triples;
      this.queries := queries;
      this.collection := collection;
      this.tensorize := tensorize;
      position := 0;
    }

    /** `__len__`: the number of triples in this shard, whatever the cursor. */
    function Len(): (n: nat)
      reads this
      ensures n == |triples|
    {
      |triples|
    }

    /** `__len__` counts the calls left before the end: from the current cursor, call `i`
        of `__next__` raises StopIteration exactly when `i >= Len() - position`. */
    lemma LenCountsCalls(k: nat)
      requires Valid()
      ensures var outs := Run(triples, queries, collection, tensorize, position, k).1;
              |outs| == k && forall i :: 0 <= i < k ==> (outs[i] == Err(StopIteration) <==> i >= Len() - position)
    {
      RunOutcomes(triples, queries, collection, tensorize, position, k);
    }

    /** `__next__`: moves the cursor one step (never past the end), raises StopIteration
        at the end, and otherwise gathers the texts of the triple it stepped over into
        one-element batches for `collate`. */
    method Next() returns (out: Result<Batch>)
      requires Valid()
      modifies this`position
      ensures Valid()
      ensures (position, out) == Step(triples, queries, collection, tensorize, old(position))
    {
      var offset, endpos := position, Min(position + 1, |triples|);
      position := endpos;
      if offset + 1 > |triples| {
        return Err(StopIteration);
      }
      var qs, ps, ns := [], [], [];
      for p := offset to endpos
        invariant |qs| == |ps| == |ns| == p - offset
        invariant forall j :: 0 <= j < p - offset ==>
                    Resolve(triples[offset + j], queries, collection) == Ok(Texts(qs[j], ps[j], ns[j]))
      {
        var t := triples[p];
        if t.qid !in queries {
          return Err(KeyError(t.qid));
        }
        if t.pos !in collection {
          return Err(KeyError(t.pos));
        }
        if t.neg !in collection {
          return Err(KeyError(t.neg));
        }
        qs, ps, ns := qs + [queries[t.qid]], ps + [collection[t.pos]], ns + [collection[t.neg]];
      }
      assert Resolve(triples[offset], queries, collection) == Ok(Texts(qs[0], ps[0], ns[0]));
      assert qs == [qs[0]] && ps == [ps[0]] && ns == [ns[0]];
      out := Collate(tensorize, qs, ps, ns);
    }
  }

  /** `__init__`: loads the triples of this rank's shard, then the queries, then the
      collection, each failure stopping construction with its exception; on success the
      reader starts with its cursor at 0. The ids the triples mention are not checked here.
      As in Python, `rank` and `nranks` default to a single shard holding every line. */
  method Open<Batch>(tripleLines: seq<string>, decode: string -> Option<Triple>, queryLines: seq<string>,
                     collectionLines: seq<string>, tensorize: Tensorizer<Batch>,
                     rank: int := 0, nranks: int := 1)
    returns (r: Result<ValidReader<Batch>>)
    ensures var ts, qs, cs := LoadedTriples(tripleLines, rank, nranks, decode),
                              Tabulate(queryLines, QueryEntry), Tabulate(collectionLines, PassageEntry);
            && (r.Ok? <==> ts.Ok? && qs.Ok? && cs.Ok?)
            && (r.Err? ==> r.error == if ts.Err? then ts.error else if qs.Err? then qs.error else cs.error)
            && (r.Ok? ==> fresh(r.value) && r.value.Valid() && r.value.position == 0 &&
                          r.value.triples == ts.value && r.value.queries == qs.value &&
                          r.value.collection == cs.value && r.value.tensorize == tensorize)
  {
    var triples := LoadTriples(tripleLines, rank, nranks, decode);
    if triples.Err? {
      return Err(triples.error);
    }
    var queries := LoadQueries(queryLines);
    if queries.Err? {
      return Err(queries.error);
    }
    var collection := LoadCollection(collectionLines);
    if collection.Err? {
      return Err(collection.error);
    }
    var reader := new ValidReader(triples.value, queries.value, collection.value, tensorize);
    return Ok(reader);
  }

  /** A triples file `[1, 10, 20]`, a queries file `1<TAB>hello world` and a collection
      holding ids 10 and 20 load into one triple and a one-entry queries table; the first
      call then hands `["hello world"]` and the two passages to the tensorizer as
      one-element batches with batch size 1, and the second raises StopIteration. */
  lemma ReadOneTriple<Batch>(decode: string -> Option<Triple>, collectionLines: seq<string>,
                             tensorize: Tensorizer<Batch>)
    requires decode("[1, 10, 20]\n") == Some(Triple(1, 10, 20))
    requires Tabulate(collectionLines, PassageEntry).Ok?
    requires 10 in Tabulate(collectionLines, PassageEntry).value
    requires 20 in Tabulate(collectionLines, PassageEntry).value
    ensures LoadedTriples(["[1, 10, 20]\n"], 0, 1, decode) == Ok([Triple(1, 10, 20)])
    ensures Tabulate(["1\thello world\n"], QueryEntry) == Ok(map[1 := "hello world"])
    ensures var c := Tabulate(collectionLines, PassageEntry).value;
            Run([Triple(1, 10, 20)], map[1 := "hello world"], c, tensorize, 0, 2) ==
            (1, [Ok(tensorize(["hello world"], [c[10]], [c[20]], 1)), Err(StopIteration)])
  {
    TriplesOfExample(decode);
    QueriesOfExample();
    RunOfExample(Tabulate(collectionLines, PassageEntry).value, tensorize);
  }

  lemma TriplesOfExample(decode: string -> Option<Triple>)
    requires decode("[1, 10, 20]\n") == Some(Triple(1, 10, 20))
    ensures LoadedTriples(["[1, 10, 20]\n"], 0, 1, decode) == Ok([Triple(1, 10, 20)])
  {
    var lines := ["[1, 10, 20]\n"];
    assert lines[..0] == [];
    assert PyMod(0, 1) == 0;
    assert Shard(lines, 0, 1) == [lines[0]];
    var r := DecodeAll([lines[0]], decode);
    assert r.Ok? && |r.value| == 1 && r.value[0] == Triple(1, 10, 20);
    assert r.value == [Triple(1, 10, 20)];
  }

  lemma QueriesOfExample()
    ensures Tabulate(["1\thello world\n"], QueryEntry) == Ok(map[1 := "hello world"])
  {
    QueryExample();
    var queryLines := ["1\thello world\n"];
    assert queryLines[..0] == [];
  }

  lemma RunOfExample<Batch>(c: map<int, string>, tensorize: Tensorizer<Batch>)
    requires 10 in c && 20 in c
    ensures Run([Triple(1, 10, 20)], map[1 := "hello world"], c, tensorize, 0, 2) ==
            (1, [Ok(tensorize(["hello world"], [c[10]], [c[20]], 1)), Err(StopIteration)])
  {
    var t := [Triple(1, 10, 20)];
    var q := map[1 := "hello world"];
    assert Step(t, q, c, tensorize, 1) == (1, Err(StopIteration));
    assert Run(t, q, c, tensorize, 1, 0) == (1, []);
    var stop: seq<Result<Batch>> := [Err(StopIteration)];
    assert stop + [] == stop;
    assert Run(t, q, c, tensorize, 1, 1) == (1, [Err(StopIteration)]);
    var first: Result<Batch> := Ok(tensorize(["hello world"], [c[10]], [c[20]], 1));
    assert Step(t, q, c, tensorize, 0) == (1, first);
    assert Run(t, q, c, tensorize, 0, 2) == (1, [first] + stop);
    assert [first] + stop == [first, Err(StopIteration)];
  }
}
