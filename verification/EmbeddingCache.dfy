/** Cached batch embedding of services/indexing_worker/indexing_worker.py.

    What the embedding API answers is arbitrary, per batch and attempt: it can be rate-limited, fail,
    or answer with a list that has empty embeddings or fewer embeddings than the batch has texts.
    The cache may fail too. */
module EmbeddingCache {
  import opened Wrappers

  type Vector = seq<real>

  /** How one call of the API for a batch ends; None is an empty embedding. */
  datatype Attempt = Answered(embeddings: seq<Option<Vector>>) | RateLimited | Failed

  /** What the API does at each batch offset and attempt. */
  type Api = (nat, nat) -> Attempt

  datatype Embedded = Raised | Done(vectors: seq<Vector>, indices: seq<nat>)

  const MAX_RETRIES := 5

  // ---------------------------------------------------------------- lists with gaps

  /** The values that are there, in order. */
  function Collect(opts: seq<Option<Vector>>): seq<Vector> {
    if opts == [] then []
    else Collect(opts[..|opts| - 1]) + (if opts[|opts| - 1].Some? then [opts[|opts| - 1].value] else [])
  }

  /** When nothing is missing, position i holds value i. */
  lemma {:induction false} CollectIsAligned(opts: seq<Option<Vector>>)
    requires forall i :: 0 <= i < |opts| ==> opts[i].Some?
    ensures |Collect(opts)| == |opts|
    ensures forall i :: 0 <= i < |opts| ==> Some(Collect(opts)[i]) == opts[i]
  {
    if opts != [] {
      CollectIsAligned(opts[..|opts| - 1]);
    }
  }

  /** Each value that is there is found behind the values before it, and gaps take no place. */
  lemma {:induction false} CollectTakesInOrder(opts: seq<Option<Vector>>, i: nat)
    requires i < |opts|
    ensures opts[i].Some? ==> |Collect(opts[..i])| < |Collect(opts)| && Collect(opts)[|Collect(opts[..i])|] == opts[i].value
    ensures |Collect(opts[..i + 1])| == |Collect(opts[..i])| + (if opts[i].Some? then 1 else 0)
    ensures Collect(opts[..i]) <= Collect(opts)
  {
    var n := |opts| - 1;
    assert opts[..i + 1][..i] == opts[..i];
    if i < n {
      assert opts[..n][..i] == opts[..i] && opts[..n][..i + 1] == opts[..i + 1];
      CollectTakesInOrder(opts[..n], i);
    } else {
      assert opts[..i + 1] == opts;
    }
  }

  /** `indices` are the positions with a value, ascending, and `vectors` the values there. */
  ghost predicate Matches(opts: seq<Option<Vector>>, vectors: seq<Vector>, indices: seq<nat>) {
    && |vectors| == |indices|
    && (forall k :: 0 <= k < |indices| ==> indices[k] < |opts| && opts[indices[k]] == Some(vectors[k]))
    && (forall k, l :: 0 <= k < l < |indices| ==> indices[k] < indices[l])
    && (forall p: nat :: p < |opts| && opts[p].Some? ==> p in indices)
  }

  lemma MatchesSnoc(opts: seq<Option<Vector>>, e: Option<Vector>, vectors: seq<Vector>, indices: seq<nat>)
    requires Matches(opts, vectors, indices)
    ensures e.Some? ==> Matches(opts + [e], vectors + [e.value], indices + [|opts|])
    ensures e.None? ==> Matches(opts + [e], vectors, indices)
  {
    if e.Some? {
      var more := indices + [|opts|];
      assert more[|indices|] == |opts|;
      forall p: nat | p < |opts| + 1 && (opts + [e])[p].Some? ensures p in more {
        if p < |opts| { assert p in indices; }
      }
    }
  }

  lemma MatchesGap(opts: seq<Option<Vector>>, a: nat, b: nat, vectors: seq<Vector>, indices: seq<nat>)
    requires a <= b <= |opts| && Matches(opts[..a], vectors, indices)
    requires forall p :: a <= p < b ==> opts[p].None?
    ensures Matches(opts[..b], vectors, indices)
  {
    forall p: nat | p < b && opts[..b][p].Some? ensures p in indices {
      assert opts[..a][p].Some?;
    }
  }

  // ---------------------------------------------------------------- the API loop

  /** What the calls for one batch bring, from attempt a on: an answer after rate limits only. */
  function AnswerFrom(api: Api, offset: nat, a: nat): Option<seq<Option<Vector>>>
    decreases MAX_RETRIES - a
  {
    if a >= MAX_RETRIES then None
    else
      match api(offset, a)
      case Answered(e) => Some(e)
      case RateLimited => AnswerFrom(api, offset, a + 1)
      case Failed => None
  }

  /** The first attempt that is not rate-limited is an answer, and one of the five. */
  lemma {:induction false} AnswerIff(api: Api, offset: nat, a: nat, e: seq<Option<Vector>>)
    ensures AnswerFrom(api, offset, a) == Some(e) <==>
              exists b: nat :: a <= b < MAX_RETRIES && api(offset, b) == Answered(e) && forall c: nat :: a <= c < b ==> api(offset, c) == RateLimited
    decreases MAX_RETRIES - a
  {
    if a < MAX_RETRIES {
      AnswerIff(api, offset, a + 1, e);
      match api(offset, a)
      case Answered(_) =>
      case Failed =>
      case RateLimited =>
        if b: nat :| a + 1 <= b < MAX_RETRIES && api(offset, b) == Answered(e) && forall c: nat :: a + 1 <= c < b ==> api(offset, c) == RateLimited {
          assert forall c: nat :: a <= c < b ==> api(offset, c) == RateLimited;
        }
    }
  }

  method CallApi(offset: nat, api: Api) returns (r: Option<seq<Option<Vector>>>)
    ensures r == AnswerFrom(api, offset, 0)
  {
    var attempt := 0;
    while attempt < MAX_RETRIES
      invariant 0 <= attempt <= MAX_RETRIES && AnswerFrom(api, offset, attempt) == AnswerFrom(api, offset, 0)
    {
      var result := api(offset, attempt);
      if result.Answered? {
        return Some(result.embeddings);
      }
      if result.Failed? || attempt == MAX_RETRIES - 1 {
        return None;
      }
      attempt := attempt + 1;
    }
    return None;
  }

  /** All batches from this offset on are answered. */
  predicate AllAnswer(api: Api, batchSize: nat, offset: nat, limit: nat)
    requires batchSize >= 1
    decreases limit - offset
  {
    offset >= limit || (AnswerFrom(api, offset, 0).Some? && AllAnswer(api, batchSize, offset + batchSize, limit))
  }

  /** What the API gave for the text at position p: its place in the answer to its batch. */
  function Got(api: Api, batchSize: nat, p: nat): Option<Vector>
    requires batchSize >= 1
  {
    var offset := p / batchSize * batchSize;
    var e := AnswerFrom(api, offset, 0);
    if e.None? || p - offset >= |e.value| then None else e.value[p - offset]
  }

  function AllGot(api: Api, batchSize: nat, n: nat): (got: seq<Option<Vector>>)
    requires batchSize >= 1
    ensures |got| == n
  {
    seq(n, p requires 0 <= p < n => Got(api, batchSize, p))
  }

  /** No answer has more embeddings than its batch has texts. */
  ghost predicate NoSurplus(api: Api, batchSize: nat, n: nat) {
    forall offset: nat, a: nat :: offset < n && api(offset, a).Answered? ==>
      |api(offset, a).embeddings| <= batchSize && offset + |api(offset, a).embeddings| <= n
  }

  lemma {:induction false} AnswerHasNoSurplus(api: Api, batchSize: nat, n: nat, offset: nat, a: nat)
    requires NoSurplus(api, batchSize, n) && offset < n && AnswerFrom(api, offset, a).Some?
    ensures |AnswerFrom(api, offset, a).value| <= batchSize && offset + |AnswerFrom(api, offset, a).value| <= n
    decreases MAX_RETRIES - a
  {
    if api(offset, a).RateLimited? {
      AnswerHasNoSurplus(api, batchSize, n, offset, a + 1);
    }
  }

  /** A batch begins at this position. */
  predicate BatchStart(i: nat, batchSize: nat)
    requires batchSize >= 1
  {
    i % batchSize == 0
  }

  lemma {:induction false} Apart(a: nat, b: nat, n: nat)
    ensures a < b ==> a * n + n <= b * n
  {
    if a < b {
      Apart(a, b - 1, n);
      OneMoreTimes(b - 1, n);
    }
  }

  lemma OneMoreTimes(a: nat, n: nat)
    ensures (a + 1) * n == a * n + n
  {
  }

  /** Whole batches and a rest determine each other. */
  lemma QuotientIs(p: nat, batchSize: nat, q: nat, rest: nat)
    requires batchSize >= 1 && p == q * batchSize + rest && rest < batchSize
    ensures p / batchSize == q && p % batchSize == rest
  {
    Apart(p / batchSize, q, batchSize);
    Apart(q, p / batchSize, batchSize);
    assert p == p / batchSize * batchSize + p % batchSize;
  }

  lemma NextBatch(i: nat, batchSize: nat)
    requires batchSize >= 1 && BatchStart(i, batchSize)
    ensures BatchStart(i + batchSize, batchSize)
  {
    var q := i / batchSize;
    assert i == q * batchSize;
    assert (q + 1) * batchSize == q * batchSize + batchSize;
    QuotientIs(i + batchSize, batchSize, q + 1, 0);
  }

  lemma GotInBatch(api: Api, batchSize: nat, i: nat, j: nat)
    requires batchSize >= 1 && BatchStart(i, batchSize) && j < batchSize && AnswerFrom(api, i, 0).Some?
    ensures var e := AnswerFrom(api, i, 0).value;
            Got(api, batchSize, i + j) == if j < |e| then e[j] else None
  {
    hide AnswerFrom;
    var q := i / batchSize;
    assert i == q * batchSize;
    QuotientIs(i + j, batchSize, q, j);
  }

  /** The loop over the answer to one batch. */
  method AppendBatch(answer: seq<Option<Vector>>, ghost opts: seq<Option<Vector>>, i: nat, ghost end: nat, vectors0: seq<Vector>, indices0: seq<nat>)
    returns (vectors: seq<Vector>, indices: seq<nat>)
    requires i + |answer| <= end <= |opts| && Matches(opts[..i], vectors0, indices0)
    requires forall j :: 0 <= j < |answer| ==> opts[i + j] == answer[j]
    requires forall p :: i + |answer| <= p < end ==> opts[p].None?
    ensures Matches(opts[..end], vectors, indices)
  {
    hide Matches;
    vectors, indices := vectors0, indices0;
    var j := 0;
    while j < |answer|
      invariant 0 <= j <= |answer|
      invariant Matches(opts[..i + j], vectors, indices)
    {
      var e := answer[j];
      MatchesSnoc(opts[..i + j], e, vectors, indices);
      assert opts[i + j] == e;
      assert opts[..i + (j + 1)] == opts[..i + j] + [e];
      if e.Some? {
        vectors := vectors + [e.value];
        indices := indices + [i + j];
      }
      j := j + 1;
    }
    MatchesGap(opts, i + j, end, vectors, indices);
  }

  lemma BatchOpts(api: Api, batchSize: nat, n: nat, i: nat)
    requires batchSize >= 1 && i < n && BatchStart(i, batchSize) && AnswerFrom(api, i, 0).Some?
    ensures var e, opts := AnswerFrom(api, i, 0).value, AllGot(api, batchSize, n);
            var end := if i + batchSize <= n then i + batchSize else n;
            && (forall j :: 0 <= j < |e| && i + j < end ==> opts[i + j] == e[j])
            && (forall p :: i + |e| <= p < end ==> opts[p].None?)
  {
    hide AnswerFrom;
    hide Got;
    hide BatchStart;
    var e, opts := AnswerFrom(api, i, 0).value, AllGot(api, batchSize, n);
    var end := if i + batchSize <= n then i + batchSize else n;
    forall j | 0 <= j < |e| && i + j < end ensures opts[i + j] == e[j] {
      GotInBatch(api, batchSize, i, j);
    }
    forall p | i + |e| <= p < end ensures opts[p].None? {
      GotInBatch(api, batchSize, i, p - i);
      assert i + (p - i) == p;
    }
  }

  method EmbedTexts(texts: seq<string>, batchSize: nat, api: Api) returns (r: Embedded)
    requires batchSize >= 1 && NoSurplus(api, batchSize, |texts|)
    ensures r.Done? ==> Matches(AllGot(api, batchSize, |texts|), r.vectors, r.indices)
    ensures r.Raised? <==> !AllAnswer(api, batchSize, 0, |texts|)
  {
    var vectors: seq<Vector>, indices: seq<nat> := [], [];
    ghost var n, opts := |texts|, AllGot(api, batchSize, |texts|);
    assert Matches(opts[..0], vectors, indices);
    assert BatchStart(0, batchSize);
    hide Matches;
    hide AnswerFrom;
    hide Got;
    hide AllGot;
    hide NoSurplus;
    hide BatchStart;
    var i := 0;
    while i < |texts|
      invariant BatchStart(i, batchSize)
      invariant AllAnswer(api, batchSize, 0, |texts|) == AllAnswer(api, batchSize, i, |texts|)
      invariant Matches(if i <= n then opts[..i] else opts, vectors, indices)
      decreases |texts| - i
    {
      var answer := CallApi(i, api);
      if answer.None? {
        return Raised;
      }
      ghost var end := if i + batchSize <= n then i + batchSize else n;
      AnswerHasNoSurplus(api, batchSize, n, i, 0);
      BatchOpts(api, batchSize, n, i);
      NextBatch(i, batchSize);
      vectors, indices := AppendBatch(answer.value, opts, i, end, vectors, indices);
      assert opts[..n] == opts;
      i := i + batchSize;
    }
    assert opts[..n] == opts;
    r := Done(vectors, indices);
  }

  // ---------------------------------------------------------------- the cache

  /** HGET of the text's hash, when the pipeline works. */
  function Probe(entries: map<string, Vector>, hash: string -> string, t: string, up: bool): Option<Vector> {
    if up && hash(t) in entries then Some(entries[hash(t)]) else None
  }

  /** What the cache has for each text. */
  function Found(entries: map<string, Vector>, hash: string -> string, texts: seq<string>, up: bool): seq<Option<Vector>> {
    seq(|texts|, i requires 0 <= i < |texts| => Probe(entries, hash, texts[i], up))
  }

  /** The positions without a value, ascending. */
  function Missing(found: seq<Option<Vector>>): seq<nat> {
    if found == [] then []
    else Missing(found[..|found| - 1]) + (if found[|found| - 1].None? then [|found| - 1] else [])
  }

  predicate IsMissList(found: seq<Option<Vector>>, misses: seq<nat>) {
    && (forall k :: 0 <= k < |misses| ==> misses[k] < |found| && found[misses[k]].None?)
    && (forall k, l :: 0 <= k < l < |misses| ==> misses[k] < misses[l])
  }

  lemma {:induction false} MissingIsMissList(found: seq<Option<Vector>>)
    ensures IsMissList(found, Missing(found))
  {
    if found != [] {
      MissingIsMissList(found[..|found| - 1]);
    }
  }

  /** A missing position's place in the list is the number of positions missing before it. */
  lemma {:induction false} MissingAt(found: seq<Option<Vector>>, i: nat)
    requires i < |found| && found[i].None?
    ensures var k := |Missing(found[..i])|; k < |Missing(found)| && Missing(found)[k] == i
  {
    var n := |found| - 1;
    if i < n {
      assert found[..n][..i] == found[..i];
      MissingAt(found[..n], i);
    }
  }

  method Misses(found: seq<Option<Vector>>) returns (misses: seq<nat>)
    ensures misses == Missing(found)
  {
    misses := [];
    var i := 0;
    while i < |found|
      invariant 0 <= i <= |found| && misses == Missing(found[..i])
    {
      assert found[..i + 1][..i] == found[..i];
      if found[i].None? {
        misses := misses + [i];
      }
      i := i + 1;
    }
    assert found[..i] == found;
  }

  /** What is had for each text: from the cache, or from the API at its place among the misses. */
  function Obtained(found: seq<Option<Vector>>, api: Api, batchSize: nat): seq<Option<Vector>>
    requires batchSize >= 1
  {
    seq(|found|, i requires 0 <= i < |found| => if found[i].Some? then found[i] else Got(api, batchSize, |Missing(found[..i])|))
  }

  /** Every cached vector is the embedding of every text with that hash. */
  ghost predicate Consistent(embed: string -> Vector, hash: string -> string, cache: map<string, Vector>) {
    forall t: string :: hash(t) in cache ==> cache[hash(t)] == embed(t)
  }

  ghost predicate Collisionless(embed: string -> Vector, hash: string -> string) {
    forall a: string, b: string :: hash(a) == hash(b) ==> embed(a) == embed(b)
  }

  /** What was had is the embedding of its text. */
  predicate Truthful(embed: string -> Vector, texts: seq<string>, opts: seq<Option<Vector>>) {
    |opts| == |texts| && forall i :: 0 <= i < |texts| && opts[i].Some? ==> opts[i].value == embed(texts[i])
  }

  /** The API gives every text its embedding or nothing. */
  predicate TruthfulApi(embed: string -> Vector, texts: seq<string>, found: seq<Option<Vector>>, api: Api, batchSize: nat)
    requires |found| == |texts| && batchSize >= 1
  {
    forall i :: 0 <= i < |texts| && found[i].None? && Obtained(found, api, batchSize)[i].Some? ==>
      Obtained(found, api, batchSize)[i].value == embed(texts[i])
  }

  /** The loop that collects what to write, by hash. */
  method HashMapping(hash: string -> string, contents: seq<string>, vectors: seq<Vector>) returns (mapping: map<string, Vector>)
    requires |contents| == |vectors|
    ensures forall h :: h in mapping ==> exists k :: 0 <= k < |contents| && h == hash(contents[k]) && mapping[h] == vectors[k]
    ensures forall k :: 0 <= k < |contents| ==> Written(hash, contents, vectors, |contents|, k, mapping)
  {
    hide Written;
    mapping := map[];
    var n := 0;
    while n < |contents|
      invariant 0 <= n <= |contents|
      invariant forall h :: h in mapping ==> exists k :: 0 <= k < n && h == hash(contents[k]) && mapping[h] == vectors[k]
      invariant forall k :: 0 <= k < n ==> Written(hash, contents, vectors, n, k, mapping)
    {
      ghost var before := mapping;
      mapping := mapping[hash(contents[n]) := vectors[n]];
      n := n + 1;
      forall k | 0 <= k < n ensures Written(hash, contents, vectors, n, k, mapping) {
        WrittenNext(hash, contents, vectors, n, k, before, mapping);
      }
    }
  }

  class Cache {
    var entries: map<string, Vector>

    /** `up` says whether the lookup pipeline works; if not, everything counts as a miss. */
    method Lookup(hash: string -> string, contents: seq<string>, up: bool)
      returns (found: seq<Option<Vector>>, misses: seq<nat>)
      ensures found == Found(entries, hash, contents, up) && misses == Missing(found)
      ensures |found| == |contents|
      ensures forall i :: 0 <= i < |contents| && up && hash(contents[i]) in entries ==> found[i] == Some(entries[hash(contents[i])])
      ensures forall i :: 0 <= i < |contents| && !(up && hash(contents[i]) in entries) ==> found[i] == None && i in misses
      ensures forall i :: i in misses ==> i < |contents| && found[i] == None
    {
      var cached := entries;
      found := seq(|contents|, i requires 0 <= i < |contents| => Probe(cached, hash, contents[i], up));
      misses := Misses(found);
      MissingIsMissList(found);
      forall i | 0 <= i < |contents| && found[i] == None ensures i in misses {
        MissingAt(found, i);
      }
    }

    /** Writes the new vectors; a failing write is swallowed. */
    method Store(hash: string -> string, contents: seq<string>, vectors: seq<Vector>, up: bool)
      requires |contents| == |vectors|
      modifies this
      ensures !up ==> entries == old(entries)
      ensures old(entries).Keys <= entries.Keys
      ensures forall h :: h in entries ==>
                || (h in old(entries) && entries[h] == old(entries)[h])
                || (exists k :: 0 <= k < |contents| && h == hash(contents[k]) && entries[h] == vectors[k])
      ensures up ==> forall k :: 0 <= k < |contents| ==> Written(hash, contents, vectors, |contents|, k, entries)
    {
      var mapping := HashMapping(hash, contents, vectors);
      if up {
        forall k | 0 <= k < |contents| ensures Written(hash, contents, vectors, |contents|, k, entries + mapping) {
          assert Written(hash, contents, vectors, |contents|, k, mapping);
        }
        entries := entries + mapping;
      }
    }

    /** The whole operation, with any cache content, batch size, and pattern of hits, misses, answers
        and failures. It returns in order what was had for the texts, from the cache or from the
        API, or None if it raises, which is when some batch of the misses is never answered. If
        writing works, all that was had is in the cache afterwards. And if cache and API give texts
        their own embeddings, so do the result and the cache afterwards. */
    method BatchEmbed(ghost embed: string -> Vector, hash: string -> string, texts: seq<string>, batchSize: nat,
                      api: Api, client: bool, lookupUp: bool, storeUp: bool)
      returns (r: Option<seq<Vector>>)
      requires batchSize >= 1 && NoSurplus(api, batchSize, |Missing(Found(entries, hash, texts, client && lookupUp))|)
      modifies this
      ensures var found := Found(old(entries), hash, texts, client && lookupUp);
              var opts := Obtained(found, api, batchSize);
              && (r == None <==> !AllAnswer(api, batchSize, 0, |Missing(found)|))
              && (r.Some? ==> r.value == Collect(opts))
              && (client && storeUp && r.Some? ==> forall i :: 0 <= i < |texts| && opts[i].Some? ==> hash(texts[i]) in entries)
              && (Collisionless(embed, hash) && Consistent(embed, hash, old(entries)) && TruthfulApi(embed, texts, found, api, batchSize) ==>
                    Truthful(embed, texts, opts) && Consistent(embed, hash, entries))
      ensures forall i :: 0 <= i < |texts| && client && lookupUp && hash(texts[i]) in old(entries) ==>
                Obtained(Found(old(entries), hash, texts, client && lookupUp), api, batchSize)[i] == Some(old(entries)[hash(texts[i])])
      ensures old(entries).Keys <= entries.Keys
      ensures !client ==> entries == old(entries)
    {
      hide Got;
      hide Missing;
      hide AnswerFrom;
      hide Collect;
      NothingMissing();
      ghost var before, all := entries, Found(entries, hash, texts, client && lookupUp);
      ghost var opts := Obtained(all, api, batchSize);
      TruthIsKept(embed, hash, texts, before, client && lookupUp, api, batchSize);
      if texts == [] {
        assert all == [] && opts == [];
        return Some([]);
      }
      var found, misses := Lookup(hash, texts, client && lookupUp);
      MissingIsMissList(found);
      if misses == [] {
        AllFound(found, api, batchSize);
        return Some(seq(|found|, i requires 0 <= i < |found| => if found[i].Some? then found[i].value else []));
      }
      var missTexts := seq(|misses|, k requires 0 <= k < |misses| => texts[misses[k]]);
      var added := EmbedTexts(missTexts, batchSize, api);
      if added.Raised? {
        return None;
      }
      if client {
        var valid := seq(|added.indices|, k requires 0 <= k < |added.indices| => missTexts[added.indices[k]]);
        Store(hash, valid, added.vectors, storeUp);
        StoredAreObtained(found, misses, api, batchSize, added.vectors, added.indices);
        if Collisionless(embed, hash) && Consistent(embed, hash, before) && TruthfulApi(embed, texts, found, api, batchSize) {
          StoreKeepsConsistent(embed, hash, before, entries, valid, added.vectors);
        }
        if storeUp {
          StoreWarms(hash, texts, client && lookupUp, before, entries, misses, api, batchSize, valid, added.vectors, added.indices);
        }
      }
      var merged := Merge(found, misses, api, batchSize, added.vectors, added.indices);
      r := Some(merged);
    }
  }

  lemma NothingMissing()
    ensures Missing([]) == [] && Collect([]) == []
  {
  }

  /** Truth of cache and API makes what is obtained true. */
  lemma TruthIsKept(embed: string -> Vector, hash: string -> string, texts: seq<string>, entries: map<string, Vector>, up: bool, api: Api, batchSize: nat)
    requires batchSize >= 1
    ensures var found := Found(entries, hash, texts, up);
            Consistent(embed, hash, entries) && TruthfulApi(embed, texts, found, api, batchSize) ==>
              Truthful(embed, texts, Obtained(found, api, batchSize))
  {
    hide Got;
    hide Missing;
  }

  lemma AllFound(found: seq<Option<Vector>>, api: Api, batchSize: nat)
    requires batchSize >= 1 && Missing(found) == []
    ensures forall i :: 0 <= i < |found| ==> found[i].Some?
    ensures Collect(Obtained(found, api, batchSize)) == seq(|found|, i requires 0 <= i < |found| => if found[i].Some? then found[i].value else [])
  {
    forall i | 0 <= i < |found| ensures found[i].Some? {
      if found[i].None? {
        MissingAt(found, i);
      }
    }
    hide Got;
    hide Missing;
    assert Obtained(found, api, batchSize) == found;
    CollectIsAligned(found);
    var s := seq(|found|, i requires 0 <= i < |found| => if found[i].Some? then found[i].value else []);
    assert forall i :: 0 <= i < |found| ==> Some(s[i]) == found[i];
  }

  /** The cache holds, for content k, the vector of the last of the first n contents with its hash. */
  ghost predicate Written(hash: string -> string, contents: seq<string>, vectors: seq<Vector>, n: nat, k: nat, cache: map<string, Vector>)
    requires k < n <= |contents| && |contents| == |vectors|
  {
    && hash(contents[k]) in cache
    && exists l :: k <= l < n && hash(contents[l]) == hash(contents[k]) && cache[hash(contents[k])] == vectors[l]
  }

  lemma WrittenNext(hash: string -> string, contents: seq<string>, vectors: seq<Vector>, n: nat, m: nat,
                    mapping: map<string, Vector>, more: map<string, Vector>)
    requires m < n <= |contents| == |vectors| && more == mapping[hash(contents[n - 1]) := vectors[n - 1]]
    requires m < n - 1 ==> Written(hash, contents, vectors, n - 1, m, mapping)
    ensures Written(hash, contents, vectors, n, m, more)
  {
    if hash(contents[m]) != hash(contents[n - 1]) {
      var l :| m <= l < n - 1 && hash(contents[l]) == hash(contents[m]) && mapping[hash(contents[m])] == vectors[l];
      assert more[hash(contents[m])] == vectors[l];
    } else {
      assert more[hash(contents[m])] == vectors[n - 1];
    }
  }

  /** The vectors that are stored are what was obtained for their texts. */
  lemma StoredAreObtained(found: seq<Option<Vector>>, misses: seq<nat>, api: Api, batchSize: nat, vectors: seq<Vector>, indices: seq<nat>)
    requires batchSize >= 1 && misses == Missing(found) && IsMissList(found, misses)
    requires Matches(AllGot(api, batchSize, |misses|), vectors, indices)
    ensures forall k :: 0 <= k < |indices| ==> Obtained(found, api, batchSize)[misses[indices[k]]] == Some(vectors[k])
  {
    hide Got;
    hide Missing;
    forall k | 0 <= k < |indices| ensures Obtained(found, api, batchSize)[misses[indices[k]]] == Some(vectors[k]) {
      RankOfMiss(found, indices[k]);
    }
  }

  lemma RankOfMiss(found: seq<Option<Vector>>, k: nat)
    requires k < |Missing(found)|
    ensures var i := Missing(found)[k]; i < |found| && found[i].None? && |Missing(found[..i])| == k
  {
    MissingIsMissList(found);
    hide Missing;
    var misses := Missing(found);
    var i := misses[k];
    MissingAt(found, i);
    var l := |Missing(found[..i])|;
    assert misses[l] == misses[k];
    assert !(l < k) && !(k < l);
  }

  lemma StoreKeepsConsistent(embed: string -> Vector, hash: string -> string, before: map<string, Vector>,
                             after: map<string, Vector>, contents: seq<string>, vectors: seq<Vector>)
    requires Collisionless(embed, hash) && Consistent(embed, hash, before) && |contents| == |vectors|
    requires forall k :: 0 <= k < |contents| ==> vectors[k] == embed(contents[k])
    requires forall h :: h in after ==>
               || (h in before && after[h] == before[h])
               || (exists k :: 0 <= k < |contents| && h == hash(contents[k]) && after[h] == vectors[k])
    ensures Consistent(embed, hash, after)
  {
  }

  /** Every text for which something was obtained is in the cache afterwards. */
  lemma StoreWarms(hash: string -> string, texts: seq<string>, up: bool, before: map<string, Vector>, after: map<string, Vector>,
                   misses: seq<nat>, api: Api, batchSize: nat, contents: seq<string>, vectors: seq<Vector>, indices: seq<nat>)
    requires batchSize >= 1 && misses == Missing(Found(before, hash, texts, up))
    requires forall k :: 0 <= k < |misses| ==> misses[k] < |texts|
    requires Matches(AllGot(api, batchSize, |misses|), vectors, indices) && |contents| == |indices|
    requires forall k :: 0 <= k < |contents| ==> contents[k] == texts[misses[indices[k]]]
    requires before.Keys <= after.Keys
    requires forall k :: 0 <= k < |contents| ==> Written(hash, contents, vectors, |contents|, k, after)
    ensures var opts := Obtained(Found(before, hash, texts, up), api, batchSize);
            forall i :: 0 <= i < |texts| && opts[i].Some? ==> hash(texts[i]) in after
  {
    hide Got;
    hide Missing;
    var found := Found(before, hash, texts, up);
    var opts := Obtained(found, api, batchSize);
    forall i | 0 <= i < |texts| && opts[i].Some? ensures hash(texts[i]) in after {
      if found[i].None? {
        MissingAt(found, i);
        var pos := |Missing(found[..i])|;
        assert AllGot(api, batchSize, |misses|)[pos] == opts[i];
        var k :| 0 <= k < |indices| && indices[k] == pos;
        assert Written(hash, contents, vectors, |contents|, k, after);
      }
    }
  }

  /** dict(zip(keys, values)). */
  function Zip<V>(keys: seq<nat>, values: seq<V>): map<nat, V>
    requires |keys| == |values|
  {
    if keys == [] then map[]
    else Zip(keys[..|keys| - 1], values[..|keys| - 1])[keys[|keys| - 1] := values[|keys| - 1]]
  }

  lemma {:induction false} ZipLookup<V>(keys: seq<nat>, values: seq<V>)
    requires |keys| == |values| && forall k, l :: 0 <= k < l < |keys| ==> keys[k] < keys[l]
    ensures forall p :: p in Zip(keys, values) <==> p in keys
    ensures forall k :: 0 <= k < |keys| ==> keys[k] in Zip(keys, values) && Zip(keys, values)[keys[k]] == values[k]
  {
    if keys != [] {
      var front, vs := keys[..|keys| - 1], values[..|keys| - 1];
      ZipLookup(front, vs);
      assert keys == front + [keys[|keys| - 1]];
      forall k | 0 <= k < |keys|
        ensures keys[k] in Zip(keys, values) && Zip(keys, values)[keys[k]] == values[k]
      {
        if k < |front| { assert front[k] == keys[k]; }
      }
    }
  }

  /** The merge loop: text i comes from the cache or, through its position among the misses, from
      the new embeddings; texts without one are skipped. */
  method Merge(found: seq<Option<Vector>>, misses: seq<nat>, ghost api: Api, ghost batchSize: nat, vectors: seq<Vector>, indices: seq<nat>)
    returns (results: seq<Vector>)
    requires batchSize >= 1 && misses == Missing(found)
    requires Matches(AllGot(api, batchSize, |misses|), vectors, indices)
    ensures results == Collect(Obtained(found, api, batchSize))
  {
    MissingIsMissList(found);
    hide Missing;
    hide Got;
    var localToEmbed := Zip(indices, vectors);
    var indexToLocal := Zip(misses, seq(|misses|, k => k));
    ZipLookup(indices, vectors);
    ZipLookup(misses, seq(|misses|, k => k));
    hide Zip;
    ghost var opts := Obtained(found, api, batchSize);
    results := [];
    var i := 0;
    while i < |found|
      invariant 0 <= i <= |found| && results == Collect(opts[..i])
    {
      assert opts[..i + 1][..i] == opts[..i];
      if found[i].Some? {
        results := results + [found[i].value];
      } else {
        MissingAt(found, i);
        assert i in misses;
        var pos := indexToLocal[i];
        assert pos == |Missing(found[..i])|;
        GotAtPosition(opts[i], AllGot(api, batchSize, |misses|), vectors, indices, pos);
        if pos in localToEmbed {
          ghost var k :| 0 <= k < |indices| && indices[k] == pos;
          results := results + [localToEmbed[pos]];
        }
      }
      i := i + 1;
    }
    assert opts[..i] == opts;
  }

  lemma GotAtPosition(e: Option<Vector>, got: seq<Option<Vector>>, vectors: seq<Vector>, indices: seq<nat>, pos: nat)
    requires Matches(got, vectors, indices) && pos < |got| && got[pos] == e
    ensures pos in indices <==> e.Some?
    ensures forall k :: 0 <= k < |indices| && indices[k] == pos ==> e == Some(vectors[k])
  {
  }
}
