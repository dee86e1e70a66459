/** The embedding client: one call to the remote embedding service per text, driven
    in groups of five with a pause between groups. */
module Embed {
  import opened Common

  type Embedding = seq<real>

  /** The remote embedding service: for each text, a vector or a thrown error. */
  type Service = string -> Result<Embedding>

  /** Number of texts whose embedding calls are dispatched together. */
  const BatchSize: nat := 5

  /** What the driver asks of the outside world: one embedding call, or one pause
      (a one-second timer in the running system). */
  datatype Event = Call(text: string) | Pause

  /** A pass-through to the service: its vector, or its error unchanged. */
  function GenerateEmbedding(service: Service, text: string): (r: Result<Embedding>)
    ensures r == service(text)
  {
    service(text)
  }

  /** The position of the first text whose embedding fails, or |texts| if none does. */
  function FirstFailure(service: Service, texts: seq<string>): (j: nat)
    ensures j <= |texts|
    ensures forall k :: 0 <= k < j ==> service(texts[k]).Ok?
    ensures j < |texts| ==> service(texts[j]).Err?
  {
    if |texts| == 0 then 0
    else if service(texts[0]).Err? then 0
    else 1 + FirstFailure(service, texts[1..])
  }

  /** Embedding every text in input order, aborting at the first failure. */
  function EmbedAll(service: Service, texts: seq<string>): Result<seq<Embedding>>
  {
    if |texts| == 0 then Ok([])
    else
      match EmbedAll(service, texts[..|texts| - 1])
      case Err(e) => Err(e)
      case Ok(es) =>
        match service(texts[|texts| - 1])
        case Err(e) => Err(e)
        case Ok(x) => Ok(es + [x])
  }

  /** EmbedAll succeeds exactly when no single call fails; it then holds the i-th
      text's vector at position i, and otherwise reports the first failure's error. */
  lemma {:induction false} EmbedAllSpec(service: Service, texts: seq<string>)
    ensures EmbedAll(service, texts).Ok? <==> FirstFailure(service, texts) == |texts|
    ensures EmbedAll(service, texts).Ok? ==>
              |EmbedAll(service, texts).value| == |texts| &&
              forall k :: 0 <= k < |texts| ==> service(texts[k]) == Ok(EmbedAll(service, texts).value[k])
    ensures EmbedAll(service, texts).Err? ==>
              EmbedAll(service, texts).error == service(texts[FirstFailure(service, texts)]).error
  {
    if |texts| > 0 {
      var init := texts[..|texts| - 1];
      EmbedAllSpec(service, init);
      var j := FirstFailure(service, init);
      assert forall k :: 0 <= k < |init| ==> init[k] == texts[k];
      if j < |init| {
        assert FirstFailure(service, texts) == j;
      } else {
        assert FirstFailure(service, texts) == |init| || FirstFailure(service, texts) == |texts|;
      }
    }
  }

  /** Once a prefix of the texts fails, the whole call fails with the same error. */
  lemma EmbedAllPrefixErr(service: Service, texts: seq<string>, k: nat)
    requires k <= |texts|
    requires EmbedAll(service, texts[..k]).Err?
    ensures EmbedAll(service, texts) == EmbedAll(service, texts[..k])
  {
    EmbedAllSpec(service, texts);
    EmbedAllSpec(service, texts[..k]);
    var j := FirstFailure(service, texts[..k]);
    assert forall i :: 0 <= i < k ==> texts[..k][i] == texts[i];
    assert FirstFailure(service, texts) == j;
  }

  /** The event of each text, in order. */
  function Calls(s: seq<string>): (es: seq<Event>)
    ensures |es| == |s| && forall k :: 0 <= k < |s| ==> es[k] == Call(s[k])
  {
    seq(|s|, k requires 0 <= k < |s| => Call(s[k]))
  }

  /** The reference schedule for embedding s: consecutive groups of BatchSize texts,
      each group's calls together, with one pause between two groups. */
  function Schedule(s: seq<string>): seq<Event>
    decreases |s|
  {
    if |s| <= BatchSize then Calls(s)
    else Calls(s[..BatchSize]) + [Pause] + Schedule(s[BatchSize..])
  }

  /** How many texts reach the service: all of them on success; on failure, every
      text up to the end of the group holding the first failure, since a group's
      calls are dispatched together and later groups never start. */
  function Dispatched(service: Service, texts: seq<string>): (d: nat)
    ensures d <= |texts|
  {
    var j := FirstFailure(service, texts);
    if j == |texts| then |texts| else Min((j / BatchSize + 1) * BatchSize, |texts|)
  }

  /** Appending a group to a run of whole groups appends a pause and its calls. */
  lemma {:induction false} ScheduleExtend(p: seq<string>, g: seq<string>)
    requires |p| > 0 && |p| % BatchSize == 0
    requires 0 < |g| <= BatchSize
    ensures Schedule(p + g) == Schedule(p) + [Pause] + Calls(g)
    decreases |p|
  {
    var s := p + g;
    assert s[..BatchSize] == p[..BatchSize];
    if |p| == BatchSize {
      assert s[BatchSize..] == g;
    } else {
      assert s[BatchSize..] == p[BatchSize..] + g;
      ScheduleExtend(p[BatchSize..], g);
    }
  }

  /** The texts of the embedding calls among events, in order. */
  function CalledTexts(es: seq<Event>): seq<string>
  {
    if |es| == 0 then []
    else (if es[0].Call? then [es[0].text] else []) + CalledTexts(es[1..])
  }

  lemma {:induction false} CalledTextsAppend(a: seq<Event>, b: seq<Event>)
    ensures CalledTexts(a + b) == CalledTexts(a) + CalledTexts(b)
  {
    if |a| == 0 {
      assert a + b == b;
    } else {
      assert (a + b)[0] == a[0];
      assert (a + b)[1..] == a[1..] + b;
      CalledTextsAppend(a[1..], b);
    }
  }

  lemma {:induction false} CalledTextsOfCalls(s: seq<string>)
    ensures CalledTexts(Calls(s)) == s
  {
    if |s| > 0 {
      assert Calls(s)[1..] == Calls(s[1..]);
      CalledTextsOfCalls(s[1..]);
    }
  }

  /** The schedule sends every text to the service exactly once, in input order. */
  lemma {:induction false} ScheduleCallsInOrder(s: seq<string>)
    ensures CalledTexts(Schedule(s)) == s
    decreases |s|
  {
    if |s| <= BatchSize {
      CalledTextsOfCalls(s);
    } else {
      CalledTextsAppend(Calls(s[..BatchSize]) + [Pause], Schedule(s[BatchSize..]));
      CalledTextsAppend(Calls(s[..BatchSize]), [Pause]);
      CalledTextsOfCalls(s[..BatchSize]);
      ScheduleCallsInOrder(s[BatchSize..]);
      assert s == s[..BatchSize] + s[BatchSize..];
    }
  }

  lemma CallsHaveNoPause(s: seq<string>)
    ensures multiset(Calls(s))[Pause] == 0
  {
    assert Pause !in Calls(s);
  }

  /** The schedule pauses once between each two of its ceil(|s| / 5) groups. */
  lemma {:induction false} SchedulePauses(s: seq<string>)
    ensures multiset(Schedule(s))[Pause] == Max(CeilDiv(|s|, BatchSize) - 1, 0)
    decreases |s|
  {
    if |s| <= BatchSize {
      CallsHaveNoPause(s);
      if |s| > 0 {
        assert CeilDiv(|s| - BatchSize, BatchSize) == 0;
      }
    } else {
      var first, rest := s[..BatchSize], s[BatchSize..];
      SchedulePauses(rest);
      CallsHaveNoPause(first);
      assert multiset(Schedule(s)) == multiset(Calls(first)) + multiset{Pause} + multiset(Schedule(rest));
      assert CeilDiv(|s|, BatchSize) == 1 + CeilDiv(|rest|, BatchSize);
      assert CeilDiv(|rest|, BatchSize) >= 1;
    }
  }

  /** The schedule ends with the call for the last text: no pause follows the last
      group. */
  lemma {:induction false} ScheduleEndsWithLast(s: seq<string>)
    requires |s| > 0
    ensures |Schedule(s)| > 0 && Schedule(s)[|Schedule(s)| - 1] == Call(s[|s| - 1])
    decreases |s|
  {
    if |s| > BatchSize {
      var rest := s[BatchSize..];
      ScheduleEndsWithLast(rest);
      assert s[|s| - 1] == rest[|rest| - 1];
    }
  }

  /** The trace after the groups before i, the pause before group i and the calls of
      group i is the schedule of the texts up to the end of that group. */
  lemma BatchTrace(texts: seq<string>, i: nat, hi: nat)
    requires i % BatchSize == 0 && i < |texts| && hi == Min(i + BatchSize, |texts|)
    ensures Schedule(texts[..i]) + (if 0 < i then [Pause] else []) + Calls(texts[i..hi]) == Schedule(texts[..hi])
  {
    if i == 0 {
      assert texts[..hi] == texts[i..hi];
    } else {
      assert texts[..i] + texts[i..hi] == texts[..hi];
      ScheduleExtend(texts[..i], texts[i..hi]);
    }
  }

  /** Embedding a concatenation: the first part, then the second, the first
      failure winning. */
  lemma {:induction false} EmbedAllAppend(service: Service, p: seq<string>, g: seq<string>)
    ensures EmbedAll(service, p + g) ==
              match EmbedAll(service, p)
              case Err(e) => Err(e)
              case Ok(a) =>
                match EmbedAll(service, g)
                case Err(e) => Err(e)
                case Ok(b) => Ok(a + b)
    decreases |g|
  {
    if |g| == 0 {
      assert p + g == p;
      match EmbedAll(service, p) {
        case Err(e) =>
        case Ok(a) => assert a + [] == a;
      }
    } else {
      var g' := g[..|g| - 1];
      EmbedAllAppend(service, p, g');
      assert (p + g)[..|p + g| - 1] == p + g';
      assert (p + g)[|p + g| - 1] == g[|g| - 1];
      match EmbedAll(service, p) {
        case Err(e) =>
        case Ok(a) =>
          match EmbedAll(service, g') {
            case Err(e) =>
            case Ok(b) =>
              match service(g[|g| - 1]) {
                case Err(e) =>
                case Ok(x) => assert (a + b) + [x] == a + (b + [x]);
              }
          }
      }
    }
  }

  /** When the group [i, hi) is the one that fails, the call reports the whole
      call's error and has dispatched exactly the texts before hi. */
  lemma FailingGroup(service: Service, texts: seq<string>, i: nat, hi: nat)
    requires i % BatchSize == 0 && i < |texts| && hi == Min(i + BatchSize, |texts|)
    requires EmbedAll(service, texts[..i]).Ok?
    requires EmbedAll(service, texts[..hi]).Err?
    ensures EmbedAll(service, texts) == EmbedAll(service, texts[..hi])
    ensures Dispatched(service, texts) == hi
  {
    EmbedAllPrefixErr(service, texts, hi);
    EmbedAllSpec(service, texts);
    EmbedAllSpec(service, texts[..i]);
    EmbedAllSpec(service, texts[..hi]);
    assert forall k :: 0 <= k < hi ==> texts[..hi][k] == texts[k];
    assert forall k :: 0 <= k < i ==> texts[..i][k] == texts[k];
    var j := FirstFailure(service, texts);
    assert i <= j < hi;
    assert j / BatchSize == i / BatchSize;
  }

  /** Embedding the texts up to the end of group [i, hi): the vectors so far followed
      by the group's, or, when the group fails, the whole call's result. */
  lemma BatchStep(service: Service, texts: seq<string>, i: nat, hi: nat, embeddings: seq<Embedding>)
    requires i % BatchSize == 0 && i < |texts| && hi == Min(i + BatchSize, |texts|)
    requires EmbedAll(service, texts[..i]) == Ok(embeddings)
    ensures EmbedAll(service, texts[i..hi]).Ok? ==>
      EmbedAll(service, texts[..hi]) == Ok(embeddings + EmbedAll(service, texts[i..hi]).value)
    ensures EmbedAll(service, texts[i..hi]).Err? ==>
      EmbedAll(service, texts) == EmbedAll(service, texts[i..hi]) && Dispatched(service, texts) == hi
  {
    assert texts[..i] + texts[i..hi] == texts[..hi];
    EmbedAllAppend(service, texts[..i], texts[i..hi]);
    if EmbedAll(service, texts[i..hi]).Err? {
      FailingGroup(service, texts, i, hi);
    }
  }

  /** One group: `Promise.all(batch.map(generateEmbedding))`. Every call of the group
      is made; the group yields every vector in order, or the first failure. */
  method EmbedGroup(service: Service, batch: seq<string>)
    returns (r: Result<seq<Embedding>>, calls: seq<Event>)
    ensures r == EmbedAll(service, batch)
    ensures calls == Calls(batch)
  {
    var results: seq<Embedding> := [];
    var failed := false;
    var failure := Error("");
    calls := [];
    for k := 0 to |batch|
      invariant calls == Calls(batch[..k])
      invariant (if failed then Err(failure) else Ok(results)) == EmbedAll(service, batch[..k])
    {
      var res := GenerateEmbedding(service, batch[k]);
      calls := calls + [Call(batch[k])];
      assert batch[..k + 1][..k] == batch[..k];
      assert batch[..k + 1][k] == batch[k];
      if !failed {
        match res
        case Ok(e) => results := results + [e];
        case Err(err) => failed, failure := true, err;
      }
    }
    assert batch[..|batch|] == batch;
    r := if failed then Err(failure) else Ok(results);
  }

  /** `generateBatchEmbeddings`: embeds the texts five at a time, appending each
      group's results in input order and pausing between groups. The result is the
      in-order embedding of every text, or the first failure; the events are the
      reference schedule of the texts that were dispatched. */
  method GenerateBatchEmbeddings(service: Service, texts: seq<string>)
    returns (r: Result<seq<Embedding>>, trace: seq<Event>)
    ensures r == EmbedAll(service, texts)
    ensures trace == Schedule(texts[..Dispatched(service, texts)])
  {
    var embeddings: seq<Embedding> := [];
    trace := [];
    var i := 0;
    ghost var done := 0;
    while i < |texts|
      invariant 0 <= i && i % BatchSize == 0 && done == Min(i, |texts|)
      invariant EmbedAll(service, texts[..done]) == Ok(embeddings)
      invariant trace == Schedule(texts[..done]) + (if 0 < i < |texts| then [Pause] else [])
      decreases |texts| - i
    {
      var hi := Min(i + BatchSize, |texts|);
      var batch := texts[i..hi];
      var batchResult, calls := EmbedGroup(service, batch);
      LoopStep(service, texts, i, hi, embeddings, trace);
      trace := trace + calls;
      if batchResult.Err? {
        r := Err(batchResult.error);
        return;
      }
      embeddings := embeddings + batchResult.value;
      if i + BatchSize < |texts| {
        trace := trace + [Pause];
      }
      i := i + BatchSize;
      done := hi;
    }
    assert texts[..done] == texts;
    r := Ok(embeddings);
    EmbedAllSpec(service, texts);
  }

  /** One turn of the driver loop, from the state before group [i, hi) to the state
      after it. */
  lemma LoopStep(service: Service, texts: seq<string>, i: nat, hi: nat, embeddings: seq<Embedding>, trace: seq<Event>)
    requires i % BatchSize == 0 && i < |texts| && hi == Min(i + BatchSize, |texts|)
    requires EmbedAll(service, texts[..Min(i, |texts|)]) == Ok(embeddings)
    requires trace == Schedule(texts[..Min(i, |texts|)]) + (if 0 < i < |texts| then [Pause] else [])
    ensures EmbedAll(service, texts[i..hi]).Err? ==>
      && EmbedAll(service, texts) == EmbedAll(service, texts[i..hi])
      && trace + Calls(texts[i..hi]) == Schedule(texts[..Dispatched(service, texts)])
    ensures EmbedAll(service, texts[i..hi]).Ok? ==>
      && EmbedAll(service, texts[..Min(i + BatchSize, |texts|)]) == Ok(embeddings + EmbedAll(service, texts[i..hi]).value)
      && trace + Calls(texts[i..hi]) + (if i + BatchSize < |texts| then [Pause] else [])
         == Schedule(texts[..Min(i + BatchSize, |texts|)]) + (if 0 < i + BatchSize < |texts| then [Pause] else [])
  {
    assert texts[..Min(i, |texts|)] == texts[..i];
    BatchStep(service, texts, i, hi, embeddings);
    BatchTrace(texts, i, hi);
  }
}
