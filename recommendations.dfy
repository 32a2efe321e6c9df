/**
 * The recommendation service: the placeholder recommenders, the id
 * de-duplication of the hybrid recommender and the round-robin topic
 * diversification.
 *
 * A recommendation is of any type `P`; `idOf` reads its `id` field and
 * `topicsOf` its `topics` list (`[]` when absent).
 */
module Recommendations {
  import opened Py
  import opened Seqs
  import Search

  // ---------------------------------------------------------------------------
  // Placeholder recommenders

  /** `get_content_based_recommendations`: a vector search for the fixed
      interests, which finds nothing. */
  function ContentBasedRecommendations<P>(userId: int, limit: int): (recs: seq<P>)
    ensures recs == []
  {
    var query := Join(" ", ["machine learning", "natural language processing"]);
    Search.VectorSearch(query, limit)
  }

  /** `get_collaborative_recommendations`: an empty list cut to `limit`. */
  function CollaborativeRecommendations<P>(userId: int, limit: int): (recs: seq<P>)
    ensures recs == []
  {
    Take([], limit)
  }

  /** `get_trending_papers`: an empty list cut to `limit`. */
  function TrendingPapers<P>(topic: Option<string>, limit: int): (recs: seq<P>)
    ensures recs == []
  {
    Take([], limit)
  }

  // ---------------------------------------------------------------------------
  // De-duplication by id

  /** The truthy ids of `recs`, in order, repeats included. */
  function IdsOf<P>(recs: seq<P>, idOf: P -> Option<string>): (ids: seq<string>)
    ensures forall id :: id in ids ==> exists j :: 0 <= j < |recs| && idOf(recs[j]) == Some(id)
    ensures forall j :: 0 <= j < |recs| && Truthy(idOf(recs[j])) ==> idOf(recs[j]).value in ids
  {
    if recs == [] then []
    else
      var init := recs[..|recs| - 1];
      var last := recs[|recs| - 1];
      assert forall j :: 0 <= j < |init| ==> init[j] == recs[j];
      IdsOf(init, idOf) + (if Truthy(idOf(last)) then [idOf(last).value] else [])
  }

  /** The position of the last record among the first `n` that carries `id`. */
  function LastIndexBelow<P>(recs: seq<P>, idOf: P -> Option<string>, id: string, n: nat): (i: nat)
    requires n <= |recs| && exists k :: 0 <= k < n && idOf(recs[k]) == Some(id)
    ensures i < n && idOf(recs[i]) == Some(id)
    ensures forall j :: i < j < n ==> idOf(recs[j]) != Some(id)
  {
    if idOf(recs[n - 1]) == Some(id) then n - 1 else LastIndexBelow(recs, idOf, id, n - 1)
  }

  /** The last record carrying `id`: the dict comprehension keeps overwriting
      the entry of `id`, so the record that stays is the last one. */
  function LastWithId<P>(recs: seq<P>, idOf: P -> Option<string>, id: string): (r: P)
    requires id in IdsOf(recs, idOf)
    ensures idOf(r) == Some(id)
    ensures exists i :: 0 <= i < |recs| && recs[i] == r &&
                        forall j :: i < j < |recs| ==> idOf(recs[j]) != Some(id)
  {
    recs[LastIndexBelow(recs, idOf, id, |recs|)]
  }

  /** The values of a dict keyed by id, built over the records with a truthy
      id: one record per truthy id, ids in order of first occurrence, each the last record with
      that id. */
  function DedupById<P>(recs: seq<P>, idOf: P -> Option<string>): (out: seq<P>)
    ensures |out| == |Distinct(IdsOf(recs, idOf))| && |out| <= |recs|
    ensures forall k :: 0 <= k < |out| ==>
              var id := Distinct(IdsOf(recs, idOf))[k];
              out[k] == LastWithId(recs, idOf, id)
  {
    var keys := Distinct(IdsOf(recs, idOf));
    DistinctNoLonger(IdsOf(recs, idOf));
    IdsNoLonger(recs, idOf);
    seq(|keys|, k requires 0 <= k < |keys| => LastWithId(recs, idOf, keys[k]))
  }

  lemma {:induction false} IdsNoLonger<P>(recs: seq<P>, idOf: P -> Option<string>)
    ensures |IdsOf(recs, idOf)| <= |recs|
  {
    if recs != [] {
      IdsNoLonger(recs[..|recs| - 1], idOf);
    }
  }

  lemma {:induction false} DistinctNoLonger<T>(s: seq<T>)
    ensures |Distinct(s)| <= |s|
  {
    if s != [] {
      DistinctNoLonger(s[..|s| - 1]);
    }
  }

  /** The de-duplicated records carry pairwise distinct ids, and every truthy id
      of the input is represented. */
  lemma DedupDistinctIds<P>(recs: seq<P>, idOf: P -> Option<string>)
    ensures var out := DedupById(recs, idOf);
            && (forall a, b :: 0 <= a < b < |out| ==> idOf(out[a]) != idOf(out[b]))
            && (forall k :: 0 <= k < |out| ==> Truthy(idOf(out[k])))
            && (forall j :: 0 <= j < |recs| && Truthy(idOf(recs[j])) ==>
                  exists k :: 0 <= k < |out| && idOf(out[k]) == idOf(recs[j]))
  {
    var keys := Distinct(IdsOf(recs, idOf));
    var out := DedupById(recs, idOf);
    forall k | 0 <= k < |out| ensures idOf(out[k]) == Some(keys[k]) && keys[k] != "" {
      var j :| 0 <= j < |recs| && idOf(recs[j]) == Some(keys[k]);
      assert Truthy(idOf(recs[j])) by {
        IdsTruthy(recs, idOf);
      }
    }
    forall j | 0 <= j < |recs| && Truthy(idOf(recs[j]))
      ensures exists k :: 0 <= k < |out| && idOf(out[k]) == idOf(recs[j])
    {
      var id := idOf(recs[j]).value;
      assert id in IdsOf(recs, idOf);
      InDistinct(IdsOf(recs, idOf), id);
      var k :| 0 <= k < |keys| && keys[k] == id;
      assert idOf(out[k]) == Some(id);
    }
  }

  lemma {:induction false} IdsTruthy<P>(recs: seq<P>, idOf: P -> Option<string>)
    ensures forall id :: id in IdsOf(recs, idOf) ==> id != ""
  {
    if recs != [] {
      IdsTruthy(recs[..|recs| - 1], idOf);
    }
  }

  /** `get_hybrid_recommendations`: content-based plus collaborative
      recommendations, de-duplicated by id and cut to `limit`; both sources are
      placeholders, so it is always empty. */
  function HybridRecommendations<P>(userId: int, limit: int, idOf: P -> Option<string>): (recs: seq<P>)
    ensures recs == []
  {
    var all := ContentBasedRecommendations<P>(userId, limit) + CollaborativeRecommendations<P>(userId, limit);
    Take(DedupById(all, idOf), limit)
  }

  // ---------------------------------------------------------------------------
  // Grouping by topic

  /** The record paired with each of its topics, in topic order. */
  function Pairs<P>(ts: seq<string>, p: P): (r: seq<(string, P)>)
    ensures |r| == |ts| && forall k :: 0 <= k < |ts| ==> r[k] == (ts[k], p)
  {
    seq(|ts|, k requires 0 <= k < |ts| => (ts[k], p))
  }

  /** The (topic, paper) entries in the order the grouping loop visits them. */
  function Entries<P>(recs: seq<P>, topicsOf: P -> seq<string>): (es: seq<(string, P)>)
    ensures forall e :: e in es ==> e.1 in recs && e.0 in topicsOf(e.1)
  {
    if recs == [] then []
    else Entries(recs[..|recs| - 1], topicsOf) + Pairs(topicsOf(recs[|recs| - 1]), recs[|recs| - 1])
  }

  /** The papers appended to `topic_groups[t]`, in order. */
  function Select<P>(es: seq<(string, P)>, t: string): seq<P>
  {
    if es == [] then []
    else Select(es[..|es| - 1], t) + (if es[|es| - 1].0 == t then [es[|es| - 1].1] else [])
  }

  /** The key order of `topic_groups`: topics by first appearance. */
  function TopicOrder<P>(es: seq<(string, P)>): seq<string>
  {
    Distinct(Firsts(es))
  }

  /** The topic groups as queues, in key order. */
  function GroupQueues<P>(es: seq<(string, P)>): (qs: seq<seq<P>>)
    ensures |qs| == |TopicOrder(es)|
  {
    var order := TopicOrder(es);
    seq(|order|, k requires 0 <= k < |order| => Select(es, order[k]))
  }

  lemma FirstsSnoc<A, B>(s: seq<(A, B)>, x: (A, B))
    ensures Firsts(s + [x]) == Firsts(s) + [x.0]
  {
  }

  lemma SelectSnoc<P>(es: seq<(string, P)>, e: (string, P), x: string)
    ensures Select(es + [e], x) == Select(es, x) + (if e.0 == x then [e.1] else [])
  {
    assert (es + [e])[..|es|] == es;
  }

  lemma {:induction false} SelectAbsent<P>(es: seq<(string, P)>, x: string)
    requires x !in Firsts(es)
    ensures Select(es, x) == []
  {
    if es != [] {
      var init := es[..|es| - 1];
      assert forall i :: 0 <= i < |init| ==> Firsts(init)[i] == Firsts(es)[i];
      assert Firsts(es)[|es| - 1] == es[|es| - 1].0;
      SelectAbsent(init, x);
    }
  }

  /** `order` and `groups` are the insertion-ordered dict `topic_groups` after
      the entries `es`. */
  ghost predicate Grouped<P>(es: seq<(string, P)>, order: seq<string>, groups: map<string, seq<P>>)
  {
    && order == TopicOrder(es)
    && (forall x :: x in groups <==> x in order)
    && (forall x :: x in groups ==> groups[x] == Select(es, x))
  }

  lemma TopicOrderSnoc<P>(es: seq<(string, P)>, t: string, p: P)
    ensures TopicOrder(es + [(t, p)]) == if t in TopicOrder(es) then TopicOrder(es) else TopicOrder(es) + [t]
  {
    FirstsSnoc(es, (t, p));
    DistinctSnoc(Firsts(es), t);
    InDistinct(Firsts(es), t);
  }

  /** One step of the grouping loop:
      `topic_groups.setdefault(t, []).append(p)` on an insertion-ordered dict. */
  lemma GroupStep<P>(es: seq<(string, P)>, t: string, p: P, order: seq<string>, groups: map<string, seq<P>>)
    requires Grouped(es, order, groups)
    ensures Grouped(es + [(t, p)], if t in groups then order else order + [t],
                    groups[t := (if t in groups then groups[t] else []) + [p]])
  {
    TopicOrderSnoc(es, t, p);
    var es' := es + [(t, p)];
    var groups' := groups[t := (if t in groups then groups[t] else []) + [p]];
    if t !in groups {
      InDistinct(Firsts(es), t);
      SelectAbsent(es, t);
    }
    forall x | x in groups' ensures groups'[x] == Select(es', x) {
      SelectSnoc(es, (t, p), x);
    }
  }

  lemma EntriesSnoc<P>(recs: seq<P>, topicsOf: P -> seq<string>, i: nat)
    requires i < |recs|
    ensures Entries(recs[..i + 1], topicsOf) == Entries(recs[..i], topicsOf) + Pairs(topicsOf(recs[i]), recs[i])
  {
    assert recs[..i + 1][..i] == recs[..i];
  }

  /** The inner grouping loop appends paper `paper` under its `j`-th topic. */
  lemma GroupTopicStep<P>(before: seq<(string, P)>, topics: seq<string>, j: nat, paper: P,
                          order: seq<string>, groups: map<string, seq<P>>)
    requires j < |topics|
    requires Grouped(before + Pairs(topics[..j], paper), order, groups)
    ensures var t := topics[j];
            Grouped(before + Pairs(topics[..j + 1], paper), if t in groups then order else order + [t],
                    groups[t := (if t in groups then groups[t] else []) + [paper]])
  {
    assert before + Pairs(topics[..j + 1], paper) == before + Pairs(topics[..j], paper) + [(topics[j], paper)];
    GroupStep(before + Pairs(topics[..j], paper), topics[j], paper, order, groups);
  }

  /** The grouping loop of `diversify_recommendations`. */
  method GroupByTopic<P>(recs: seq<P>, topicsOf: P -> seq<string>)
    returns (order: seq<string>, groups: map<string, seq<P>>)
    ensures Grouped(Entries(recs, topicsOf), order, groups)
  {
    order, groups := [], map[];
    for i := 0 to |recs|
      invariant Grouped(Entries(recs[..i], topicsOf), order, groups)
    {
      var paper := recs[i];
      var topics := topicsOf(paper);
      ghost var before := Entries(recs[..i], topicsOf);
      assert before + Pairs(topics[..0], paper) == before;
      for j := 0 to |topics|
        invariant Grouped(before + Pairs(topics[..j], paper), order, groups)
      {
        var topic := topics[j];
        GroupTopicStep(before, topics, j, paper, order, groups);
        if topic !in groups {
          order := order + [topic];
        }
        groups := groups[topic := (if topic in groups then groups[topic] else []) + [paper]];
      }
      assert topics[..|topics|] == topics;
      EntriesSnoc(recs, topicsOf, i);
    }
    assert recs[..|recs|] == recs;
  }

  // ---------------------------------------------------------------------------
  // Round robin

  /** The number of papers queued. */
  function Total<P>(qs: seq<seq<P>>): nat
  {
    if qs == [] then 0 else Total(qs[..|qs| - 1]) + |qs[|qs| - 1]|
  }

  lemma {:induction false} TotalAppend<P>(a: seq<seq<P>>, b: seq<seq<P>>)
    ensures Total(a + b) == Total(a) + Total(b)
    decreases |b|
  {
    if b != [] {
      TotalAppend(a, b[..|b| - 1]);
      assert (a + b)[..|a + b| - 1] == a + b[..|b| - 1];
    } else {
      assert a + b == a;
    }
  }

  /** One pass of the `for topic in topics[:]` loop over the queues in order:
      a non-empty queue yields its head and keeps its tail; an empty queue is
      dropped. */
  function Pass<P>(qs: seq<seq<P>>): (r: (seq<P>, seq<seq<P>>))
    ensures |r.0| == |r.1| <= |qs|
    ensures Total(r.1) + |r.0| == Total(qs)
  {
    if qs == [] then ([], [])
    else
      var prev := Pass(qs[..|qs| - 1]);
      var q := qs[|qs| - 1];
      if q == [] then prev else (prev.0 + [q[0]], prev.1 + [q[1..]])
  }

  /** Everything the round robin emits, passes one after another until every
      topic is dropped; each pass keeps the total queued plus the number of
      topics strictly decreasing. */
  function RoundRobin<P>(qs: seq<seq<P>>): (out: seq<P>)
    ensures |out| == Total(qs)
    decreases Total(qs) + |qs|
  {
    if qs == [] then []
    else
      var (heads, rest) := Pass(qs);
      heads + RoundRobin(rest)
  }

  /** A pass over a prefix of the queues emits a prefix of the full pass. */
  lemma {:induction false} PassPrefix<P>(qs: seq<seq<P>>, k: nat)
    requires k <= |qs|
    ensures |Pass(qs[..k]).0| <= |Pass(qs).0|
    ensures Pass(qs[..k]).0 == Pass(qs).0[..|Pass(qs[..k]).0|]
    decreases |qs| - k
  {
    if k < |qs| {
      var qs' := qs[..|qs| - 1];
      PassPrefix(qs', k);
      assert qs'[..k] == qs[..k];
    } else {
      assert qs[..k] == qs;
    }
  }

  /** `topics` with the topics' queues looked up. */
  function QueuesOf<P>(topics: seq<string>, groups: map<string, seq<P>>): (qs: seq<seq<P>>)
    requires forall t :: t in topics ==> t in groups
    ensures |qs| == |topics| && forall k :: 0 <= k < |topics| ==> qs[k] == groups[topics[k]]
  {
    seq(|topics|, k requires 0 <= k < |topics| && topics[k] in groups => groups[topics[k]])
  }

  /** Python `list.remove(x)`: drops the first occurrence. */
  function RemoveFirst<T(==)>(s: seq<T>, x: T): (r: seq<T>)
    requires x in s
    ensures |r| == |s| - 1
  {
    if s[0] == x then s[1..] else [s[0]] + RemoveFirst(s[1..], x)
  }

  lemma {:induction false} RemoveFirstAt<T>(s: seq<T>, i: nat)
    requires i < |s| && NoDuplicates(s)
    ensures RemoveFirst(s, s[i]) == s[..i] + s[i + 1..]
  {
    if i > 0 {
      assert s[1..][i - 1] == s[i];
      RemoveFirstAt(s[1..], i - 1);
      assert s[..i] == [s[0]] + s[1..][..i - 1];
    }
  }

  /** The inner-loop state: `topics` is what was kept so far followed by the
      snapshot's unvisited topics, and the queues are the pass's tails so far
      followed by the unvisited queues. */
  ghost predicate InPass<P>(topics: seq<string>, groups: map<string, seq<P>>, snapshot: seq<string>,
                            qs: seq<seq<P>>, k: nat)
  {
    && k <= |snapshot| == |qs|
    && NoDuplicates(topics)
    && (forall t :: t in topics ==> t in groups)
    && |topics| == |Pass(qs[..k]).1| + (|snapshot| - k)
    && topics[|Pass(qs[..k]).1|..] == snapshot[k..]
    && QueuesOf(topics, groups) == Pass(qs[..k]).1 + qs[k..]
  }

  /** Updating the queue of the topic at `p` changes only position `p`. */
  lemma QueuesUpdateAt<P>(topics: seq<string>, groups: map<string, seq<P>>, p: nat, q: seq<P>)
    requires p < |topics| && NoDuplicates(topics) && forall t :: t in topics ==> t in groups
    ensures forall t :: t in topics ==> t in groups[topics[p] := q]
    ensures QueuesOf(topics, groups[topics[p] := q]) == QueuesOf(topics, groups)[p := q]
  {
    var lhs := QueuesOf(topics, groups[topics[p] := q]);
    forall m | 0 <= m < |topics| ensures lhs[m] == QueuesOf(topics, groups)[p := q][m] {
      if m != p {
        assert topics[m] != topics[p];
      }
    }
  }

  /** Popping the head of the visited topic's non-empty queue. */
  lemma PopStep<P>(topics: seq<string>, groups: map<string, seq<P>>, snapshot: seq<string>,
                   qs: seq<seq<P>>, k: nat)
    requires InPass(topics, groups, snapshot, qs, k) && k < |snapshot|
    requires groups[snapshot[k]] != []
    ensures var topic := snapshot[k];
            && qs[k] == groups[topic]
            && InPass(topics, groups[topic := groups[topic][1..]], snapshot, qs, k + 1)
            && Pass(qs[..k + 1]).0 == Pass(qs[..k]).0 + [groups[topic][0]]
  {
    var topic := snapshot[k];
    var done := Pass(qs[..k]).1;
    var p := |done|;
    var queues := QueuesOf(topics, groups);
    assert topics[p] == topics[p..][0] == topic;
    assert qs[k] == (done + qs[k..])[p] == queues[p];
    PassSnoc(qs, k);
    QueuesUpdateAt(topics, groups, p, qs[k][1..]);
    SuffixCons(qs, k);
    UpdateMiddle(done, qs[k], qs[k + 1..], qs[k][1..]);
    SuffixCons(topics, p);
  }

  /** One more queue visited: its head and tail join the pass unless it is empty. */
  lemma PassSnoc<P>(qs: seq<seq<P>>, k: nat)
    requires k < |qs|
    ensures Pass(qs[..k + 1]) == if qs[k] == [] then Pass(qs[..k])
                                 else (Pass(qs[..k]).0 + [qs[k][0]], Pass(qs[..k]).1 + [qs[k][1..]])
  {
    assert qs[..k + 1][..k] == qs[..k];
  }

  /** Dropping a topic drops its queue. */
  lemma QueuesRemoveAt<P>(topics: seq<string>, groups: map<string, seq<P>>, p: nat)
    requires p < |topics| && forall t :: t in topics ==> t in groups
    ensures forall t :: t in topics[..p] + topics[p + 1..] ==> t in groups
    ensures QueuesOf(topics[..p] + topics[p + 1..], groups)
              == QueuesOf(topics, groups)[..p] + QueuesOf(topics, groups)[p + 1..]
  {
    var topics' := topics[..p] + topics[p + 1..];
    forall t | t in topics' ensures t in groups {
      var m :| 0 <= m < |topics'| && topics'[m] == t;
      assert topics'[m] == topics[if m < p then m else m + 1];
    }
  }

  /** Removing the visited topic whose queue is empty. */
  lemma RemoveStep<P>(topics: seq<string>, groups: map<string, seq<P>>, snapshot: seq<string>,
                      qs: seq<seq<P>>, k: nat)
    requires InPass(topics, groups, snapshot, qs, k) && k < |snapshot|
    requires groups[snapshot[k]] == []
    ensures snapshot[k] in topics
    ensures InPass(RemoveFirst(topics, snapshot[k]), groups, snapshot, qs, k + 1)
    ensures Pass(qs[..k + 1]) == Pass(qs[..k])
  {
    var topic := snapshot[k];
    var done := Pass(qs[..k]).1;
    var p := |done|;
    var queues := QueuesOf(topics, groups);
    assert topics[p] == topics[p..][0] == topic;
    assert qs[k] == (done + qs[k..])[p] == queues[p] == [];
    PassSnoc(qs, k);
    RemoveFirstAt(topics, p);
    NoDuplicatesRemoveAt(topics, p);
    QueuesRemoveAt(topics, groups, p);
    assert queues[..p] == done && queues[p + 1..] == qs[k + 1..];
    assert (topics[..p] + topics[p + 1..])[p..] == topics[p + 1..] == topics[p..][1..];
  }

  /** The inner-loop state together with what was taken: `taken` is `diverse`
      followed by the heads of the pass so far. */
  ghost predicate PassState<P>(topics: seq<string>, groups: map<string, seq<P>>, taken: seq<P>,
                               snapshot: seq<string>, qs: seq<seq<P>>, diverse: seq<P>, k: nat)
  {
    InPass(topics, groups, snapshot, qs, k) && taken == diverse + Pass(qs[..k]).0
  }

  lemma TakeHead<P>(topics: seq<string>, groups: map<string, seq<P>>, taken: seq<P>,
                    snapshot: seq<string>, qs: seq<seq<P>>, diverse: seq<P>, k: nat)
    requires PassState(topics, groups, taken, snapshot, qs, diverse, k) && k < |snapshot|
    requires groups[snapshot[k]] != []
    ensures var topic := snapshot[k];
            PassState(topics, groups[topic := groups[topic][1..]], taken + [groups[topic][0]],
                      snapshot, qs, diverse, k + 1)
  {
    PopStep(topics, groups, snapshot, qs, k);
    var head := groups[snapshot[k]][0];
    assert diverse + (Pass(qs[..k]).0 + [head]) == (diverse + Pass(qs[..k]).0) + [head];
  }

  lemma DropTopic<P>(topics: seq<string>, groups: map<string, seq<P>>, taken: seq<P>,
                     snapshot: seq<string>, qs: seq<seq<P>>, diverse: seq<P>, k: nat)
    requires PassState(topics, groups, taken, snapshot, qs, diverse, k) && k < |snapshot|
    requires groups[snapshot[k]] == []
    ensures snapshot[k] in topics
    ensures PassState(RemoveFirst(topics, snapshot[k]), groups, taken, snapshot, qs, diverse, k + 1)
  {
    RemoveStep(topics, groups, snapshot, qs, k);
  }

  /** Within a pass, the queued total plus the number of topics has dropped by
      the number of topics visited. */
  lemma InPassMeasure<P>(topics: seq<string>, groups: map<string, seq<P>>, snapshot: seq<string>,
                         qs: seq<seq<P>>, k: nat)
    requires InPass(topics, groups, snapshot, qs, k)
    ensures Total(QueuesOf(topics, groups)) + |topics| + k == Total(qs) + |qs|
  {
    var done := Pass(qs[..k]);
    assert QueuesOf(topics, groups) == done.1 + qs[k..];
    TotalAppend(done.1, qs[k..]);
    assert qs[..k] + qs[k..] == qs;
    TotalAppend(qs[..k], qs[k..]);
  }

  /** What one pass of the outer `while` loop leaves behind, starting from the
      queues `qs` with `diverse` taken: the pass's heads are appended (cut short
      at `limit`), the remaining queues are the pass's tails unless it was cut
      short, and the queued total plus the number of topics has dropped. */
  ghost predicate PassOutcome<P>(qs: seq<seq<P>>, diverse: seq<P>, limit: int,
                                 topics': seq<string>, groups': map<string, seq<P>>, diverse': seq<P>)
  {
    && NoDuplicates(topics') && (forall t :: t in topics' ==> t in groups')
    && |diverse| <= |diverse'| <= limit
    && |diverse'| - |diverse| <= |Pass(qs).0|
    && diverse' == diverse + Pass(qs).0[..|diverse'| - |diverse|]
    && (|diverse'| < limit ==> diverse' == diverse + Pass(qs).0 && QueuesOf(topics', groups') == Pass(qs).1)
    && Total(QueuesOf(topics', groups')) + |topics'| < Total(qs) + |qs|
  }

  /** A pass starts with nothing visited. */
  lemma StartPass<P>(topics: seq<string>, groups: map<string, seq<P>>)
    requires NoDuplicates(topics) && forall t :: t in topics ==> t in groups
    ensures InPass(topics, groups, topics, QueuesOf(topics, groups), 0)
    ensures Pass(QueuesOf(topics, groups)[..0]).0 == []
  {
    var qs := QueuesOf(topics, groups);
    assert qs[..0] == [] && qs[0..] == qs && topics[0..] == topics;
  }

  /** The pass stopped after visiting `k` topics because `limit` was reached. */
  lemma StoppedOutcome<P>(qs: seq<seq<P>>, diverse: seq<P>, limit: int, snapshot: seq<string>, k: nat,
                          topics': seq<string>, groups': map<string, seq<P>>, diverse': seq<P>)
    requires PassState(topics', groups', diverse', snapshot, qs, diverse, k) && 0 < k
    requires |diverse'| >= limit && |diverse'| - 1 < limit && |diverse| < limit
    ensures PassOutcome(qs, diverse, limit, topics', groups', diverse')
  {
    PassPrefix(qs, k);
    InPassMeasure(topics', groups', snapshot, qs, k);
  }

  /** The pass visited every topic without reaching `limit`. */
  lemma FinishedOutcome<P>(qs: seq<seq<P>>, diverse: seq<P>, limit: int, snapshot: seq<string>,
                           topics': seq<string>, groups': map<string, seq<P>>, diverse': seq<P>)
    requires PassState(topics', groups', diverse', snapshot, qs, diverse, |snapshot|) && snapshot != []
    requires |diverse| <= |diverse'| < limit
    ensures PassOutcome(qs, diverse, limit, topics', groups', diverse')
  {
    InPassMeasure(topics', groups', snapshot, qs, |snapshot|);
    assert qs[..|snapshot|] == qs && qs[|snapshot|..] == [];
  }

  /** One pass of the outer `while` loop's body: the `for topic in topics[:]`
      loop, which stops early (`stopped`) once `limit` papers are taken, after
      visiting `k` topics. */
  method DiversifyPass<P>(topics: seq<string>, groups: map<string, seq<P>>, diverse: seq<P>, limit: int)
    returns (topics': seq<string>, groups': map<string, seq<P>>, diverse': seq<P>, ghost k: nat, stopped: bool)
    requires NoDuplicates(topics) && forall t :: t in topics ==> t in groups
    requires |diverse| < limit
    ensures k <= |topics| && PassState(topics', groups', diverse', topics, QueuesOf(topics, groups), diverse, k)
    ensures stopped ==> 0 < k && limit <= |diverse'| < limit + 1
    ensures !stopped ==> k == |topics| && |diverse'| < limit
  {
    ghost var qs := QueuesOf(topics, groups);
    topics', groups', diverse' := topics, groups, diverse;
    stopped := false;
    var snapshot := topics;
    StartPass(topics, groups);
    k := 0;
    for i := 0 to |snapshot|
      invariant k == i
      invariant PassState(topics', groups', diverse', snapshot, qs, diverse, i)
      invariant |diverse'| < limit
    {
      topics', groups', diverse', stopped := VisitTopic(topics', groups', diverse', snapshot, qs, diverse, i, limit);
      k := i + 1;
      if stopped {
        return;
      }
    }
  }

  /** One iteration of the `for topic in topics[:]` loop: take the head of the
      topic's queue, stopping once `limit` papers are taken, or drop the topic
      when its queue is empty. */
  method VisitTopic<P>(topics: seq<string>, groups: map<string, seq<P>>, taken: seq<P>,
                       snapshot: seq<string>, ghost qs: seq<seq<P>>, ghost diverse: seq<P>, i: nat, limit: int)
    returns (topics': seq<string>, groups': map<string, seq<P>>, taken': seq<P>, stopped: bool)
    requires PassState(topics, groups, taken, snapshot, qs, diverse, i) && i < |snapshot|
    requires |taken| < limit
    ensures PassState(topics', groups', taken', snapshot, qs, diverse, i + 1)
    ensures stopped <==> limit <= |taken'|
    ensures |taken'| < limit + 1
  {
    var topic := snapshot[i];
    topics', groups', taken', stopped := topics, groups, taken, false;
    if groups[topic] != [] {
      TakeHead(topics, groups, taken, snapshot, qs, diverse, i);
      taken' := taken + [groups[topic][0]];
      groups' := groups[topic := groups[topic][1..]];
      stopped := |taken'| >= limit;
    } else {
      DropTopic(topics, groups, taken, snapshot, qs, diverse, i);
      topics' := RemoveFirst(topics, topic);
    }
  }

  /** What `diversify_recommendations(recs, limit)` returns. */
  function Diversified<P>(recs: seq<P>, topicsOf: P -> seq<string>, limit: int): seq<P>
  {
    if recs == [] || limit <= 0 then []
    else Take(RoundRobin(GroupQueues(Entries(recs, topicsOf))), limit)
  }

  /** The outer-loop state: `diverse` is a prefix of everything the round robin
      emits and, while below `limit`, the rest is the round robin of the queues
      left. */
  ghost predicate RoundState<P>(all: seq<P>, topics: seq<string>, groups: map<string, seq<P>>,
                                diverse: seq<P>, limit: int)
  {
    && NoDuplicates(topics) && (forall t :: t in topics ==> t in groups)
    && |diverse| <= |all| && diverse == all[..|diverse|]
    && |diverse| <= Max(limit, 0)
    && (|diverse| < limit ==> all == diverse + RoundRobin(QueuesOf(topics, groups)))
  }

  lemma RoundStep<P>(all: seq<P>, topics: seq<string>, groups: map<string, seq<P>>, diverse: seq<P>, limit: int,
                     topics': seq<string>, groups': map<string, seq<P>>, diverse': seq<P>)
    requires RoundState(all, topics, groups, diverse, limit) && topics != [] && |diverse| < limit
    requires PassOutcome(QueuesOf(topics, groups), diverse, limit, topics', groups', diverse')
    ensures RoundState(all, topics', groups', diverse', limit)
  {
    var qs := QueuesOf(topics, groups);
    var heads := Pass(qs).0;
    var rest := RoundRobin(Pass(qs).1);
    var m := |diverse'| - |diverse|;
    assert RoundRobin(qs) == heads + rest;
    AppendAssoc(diverse, heads, rest);
    PrefixAppend(diverse, heads + rest, m);
    assert (heads + rest)[..m] == heads[..m];
    if |diverse'| < limit {
      assert heads[..m] == heads;
      assert all == diverse' + rest;
    }
  }

  lemma StartRound<P>(es: seq<(string, P)>, order: seq<string>, groups: map<string, seq<P>>, limit: int)
    requires Grouped(es, order, groups)
    ensures forall t :: t in order ==> t in groups
    ensures QueuesOf(order, groups) == GroupQueues(es)
    ensures RoundState(RoundRobin(GroupQueues(es)), order, groups, [], limit)
  {
  }

  lemma EndRound<P>(all: seq<P>, topics: seq<string>, groups: map<string, seq<P>>, diverse: seq<P>, limit: int)
    requires RoundState(all, topics, groups, diverse, limit)
    requires |diverse| >= limit || topics == []
    ensures Take(diverse, limit) == if limit <= 0 then [] else Take(all, limit)
  {
    if |diverse| < limit {
      assert QueuesOf(topics, groups) == [];
      assert all == diverse;
    }
  }

  /** `diversify_recommendations`: groups the papers by topic, then passes over
      the remaining topics in first-seen order, taking the head of each
      non-empty group and dropping topics whose group is empty, until `limit`
      papers are taken or no topic is left. */
  method DiversifyRecommendations<P>(recs: seq<P>, topicsOf: P -> seq<string>, limit: int)
    returns (r: seq<P>)
    ensures r == Diversified(recs, topicsOf, limit)
  {
    if recs == [] {
      return [];
    }
    var order, groups := GroupByTopic(recs, topicsOf);
    StartRound(Entries(recs, topicsOf), order, groups, limit);
    ghost var all := RoundRobin(GroupQueues(Entries(recs, topicsOf)));
    var diverse: seq<P> := [];
    var topics := order;
    while |diverse| < limit && topics != []
      invariant RoundState(all, topics, groups, diverse, limit)
      decreases Total(QueuesOf(topics, groups)) + |topics|
    {
      ghost var qs := QueuesOf(topics, groups);
      ghost var d0 := diverse;
      ghost var snapshot := topics;
      ghost var k;
      var stopped, topics', groups', diverse';
      topics', groups', diverse', k, stopped := DiversifyPass(topics, groups, diverse, limit);
      if stopped {
        StoppedOutcome(qs, d0, limit, snapshot, k, topics', groups', diverse');
      } else {
        FinishedOutcome(qs, d0, limit, snapshot, topics', groups', diverse');
      }
      RoundStep(all, topics, groups, diverse, limit, topics', groups', diverse');
      topics, groups, diverse := topics', groups', diverse';
    }
    EndRound(all, topics, groups, diverse, limit);
    r := Take(diverse, limit);
  }

  // ---------------------------------------------------------------------------
  // Properties of the diversification

  lemma {:induction false} TotalUpdate<P>(qs: seq<seq<P>>, i: nat, q: seq<P>)
    requires i < |qs|
    ensures Total(qs[i := q]) == Total(qs) - |qs[i]| + |q|
  {
    var n := |qs| - 1;
    assert qs[i := q][..n] == if i == n then qs[..n] else qs[..n][i := q];
    if i < n {
      TotalUpdate(qs[..n], i, q);
    }
  }

  /** The topic groups hold every (topic, paper) entry exactly once. */
  lemma {:induction false} GroupTotal<P>(es: seq<(string, P)>)
    ensures Total(GroupQueues(es)) == |es|
  {
    if es != [] {
      var init := es[..|es| - 1];
      var e := es[|es| - 1];
      assert es == init + [e];
      GroupTotal(init);
      var order := TopicOrder(init);
      var qs := GroupQueues(init);
      if e.0 in order {
        var i :| 0 <= i < |order| && order[i] == e.0;
        GroupQueuesSnocKnown(init, e, i);
        TotalUpdate(qs, i, qs[i] + [e.1]);
      } else {
        GroupQueuesSnocNew(init, e);
        assert (qs + [[e.1]])[..|qs|] == qs;
      }
    }
  }

  /** An entry under a known topic joins that topic's queue. */
  lemma GroupQueuesSnocKnown<P>(es: seq<(string, P)>, e: (string, P), i: nat)
    requires i < |TopicOrder(es)| && TopicOrder(es)[i] == e.0
    ensures GroupQueues(es + [e]) == GroupQueues(es)[i := GroupQueues(es)[i] + [e.1]]
  {
    var order := TopicOrder(es);
    var qs := GroupQueues(es);
    var grown := GroupQueues(es + [e]);
    var want := qs[i := qs[i] + [e.1]];
    TopicOrderSnoc(es, e.0, e.1);
    assert es + [e] == es + [(e.0, e.1)];
    assert TopicOrder(es + [e]) == order;
    forall m | 0 <= m < |order| ensures grown[m] == want[m] {
      assert grown[m] == Select(es + [e], order[m]);
      SelectSnoc(es, e, order[m]);
      if m != i {
        assert order[m] != order[i];
      }
    }
  }

  /** An entry under a new topic opens a queue of its own at the end. */
  lemma GroupQueuesSnocNew<P>(es: seq<(string, P)>, e: (string, P))
    requires e.0 !in TopicOrder(es)
    ensures GroupQueues(es + [e]) == GroupQueues(es) + [[e.1]]
  {
    var order := TopicOrder(es);
    var qs := GroupQueues(es);
    var grown := GroupQueues(es + [e]);
    var want := qs + [[e.1]];
    TopicOrderSnoc(es, e.0, e.1);
    assert es + [e] == es + [(e.0, e.1)];
    assert TopicOrder(es + [e]) == order + [e.0];
    InDistinct(Firsts(es), e.0);
    SelectAbsent(es, e.0);
    forall m | 0 <= m < |order| + 1 ensures grown[m] == want[m] {
      if m < |order| {
        assert grown[m] == Select(es + [e], order[m]);
        SelectSnoc(es, e, order[m]);
      } else {
        assert grown[m] == Select(es + [e], e.0);
        SelectSnoc(es, e, e.0);
      }
    }
  }

  /** The diversified list has `limit` papers, or one per (paper, topic) pair
      when there are fewer: a paper with several topics can appear once per
      topic. */
  lemma DiversifiedLength<P>(recs: seq<P>, topicsOf: P -> seq<string>, limit: int)
    ensures |Diversified(recs, topicsOf, limit)| ==
              if recs == [] || limit <= 0 then 0 else Min(limit, |Entries(recs, topicsOf)|)
  {
    GroupTotal(Entries(recs, topicsOf));
  }

  /** `x` waits in one of the queues. */
  ghost predicate Queued<P>(qs: seq<seq<P>>, x: P)
  {
    exists i :: 0 <= i < |qs| && x in qs[i]
  }

  lemma {:induction false} PassFrom<P>(qs: seq<seq<P>>, x: P)
    requires x in Pass(qs).0 || Queued(Pass(qs).1, x)
    ensures Queued(qs, x)
  {
    if qs != [] {
      var init := qs[..|qs| - 1];
      var q := qs[|qs| - 1];
      if x in q {
        assert x in qs[|qs| - 1];
      } else {
        if q != [] && Queued(Pass(qs).1, x) {
          var i :| 0 <= i < |Pass(qs).1| && x in Pass(qs).1[i];
          assert x !in q[1..];
          assert x in Pass(init).1[i];
        }
        PassFrom(init, x);
        var j :| 0 <= j < |init| && x in init[j];
        assert x in qs[j];
      }
    }
  }

  lemma {:induction false} RoundRobinFrom<P>(qs: seq<seq<P>>, x: P)
    requires x in RoundRobin(qs)
    ensures Queued(qs, x)
    decreases Total(qs) + |qs|
  {
    var (heads, rest) := Pass(qs);
    if x !in heads {
      RoundRobinFrom(rest, x);
    }
    PassFrom(qs, x);
  }

  lemma {:induction false} SelectFrom<P>(es: seq<(string, P)>, t: string, x: P)
    requires x in Select(es, t)
    ensures (t, x) in es
  {
    var init := es[..|es| - 1];
    if x in Select(init, t) {
      SelectFrom(init, t, x);
      assert (t, x) in init;
    }
  }

  /** Every diversified paper is one of the input papers and has a topic:
      papers without topics are never recommended. */
  lemma DiversifiedFromInputs<P>(recs: seq<P>, topicsOf: P -> seq<string>, limit: int, x: P)
    requires x in Diversified(recs, topicsOf, limit)
    ensures x in recs && topicsOf(x) != []
  {
    var es := Entries(recs, topicsOf);
    var qs := GroupQueues(es);
    RoundRobinFrom(qs, x);
    var i :| 0 <= i < |qs| && x in qs[i];
    SelectFrom(es, TopicOrder(es)[i], x);
  }
}
