/**
 * Choosing candidates for the free position slots: rank by evidence, then admit greedily while a slot is free
 * and nothing admitted already represents the candidate.
 */
module Allocation {
  import opened Basics

  /** Proofs of one candidate; a missing or non-finite metric is `None`. Ids stand for their text order. */
  datatype Record = Record(candidate: nat, variant: nat, family: nat, lower: Option<real>, drawdown: Option<real>,
                           trades: Option<real>, delta: Option<real>)

  // ---- Ranking

  /** A metric, or the value below every metric. */
  datatype Score = Worst | Measured(value: real)
  {
    predicate Below(s: Score) { s.Measured? && (Worst? || value < s.value) }
  }

  datatype Rank = Rank(lower: Score, calm: Score, trades: int, delta: Score, variant: nat, candidate: nat)
  {
    /** Lexicographic order, best evidence last. */
    predicate Below(r: Rank) {
      lower.Below(r.lower) || (lower == r.lower &&
      (calm.Below(r.calm) || (calm == r.calm &&
      (trades < r.trades || (trades == r.trades &&
      (delta.Below(r.delta) || (delta == r.delta &&
      (variant < r.variant || (variant == r.variant && candidate < r.candidate)))))))))
    }
  }

  function ScoreOf(metric: Option<real>): Score { if metric.Some? then Measured(metric.value) else Worst }

  function EvidenceRank(r: Record): Rank {
    Rank(ScoreOf(r.lower),
         if r.drawdown.Some? && r.drawdown.value >= 0.0 then Measured(-r.drawdown.value) else Worst,
         if r.trades.Some? && r.trades.value >= 0.0 then r.trades.value.Floor else 0,
         ScoreOf(r.delta), r.variant, r.candidate)
  }

  /** The ranking is a strict total order. */
  lemma RankIsTotal(a: Rank, b: Rank, c: Rank)
    ensures !a.Below(a)
    ensures a == b || a.Below(b) || b.Below(a)
    ensures a.Below(b) ==> !b.Below(a)
    ensures a.Below(b) && b.Below(c) ==> a.Below(c)
  {
  }

  /** Erasing any metric never improves a rank: unmeasured evidence never outranks measured evidence. */
  lemma UnmeasuredNeverOutranks(r: Record, poorer: Record)
    requires poorer.variant == r.variant && poorer.candidate == r.candidate
    requires poorer.lower == r.lower || poorer.lower.None?
    requires poorer.drawdown == r.drawdown || poorer.drawdown.None?
    requires poorer.trades == r.trades || poorer.trades.None?
    requires poorer.delta == r.delta || poorer.delta.None?
    ensures !EvidenceRank(r).Below(EvidenceRank(poorer))
    ensures r.lower.Some? && poorer.lower.None? ==> EvidenceRank(poorer).Below(EvidenceRank(r))
  {
  }

  predicate Outranks(a: Record, b: Record) { EvidenceRank(b).Below(EvidenceRank(a)) }

  /**
   * What decides: the lower bound, then the smaller drawdown, then more whole trades, then the point estimate,
   * then the ids. A negative drawdown or trade count is as good as none.
   */
  lemma BetterEvidenceOutranks(a: Record, b: Record)
    ensures (a.lower.Some? && (b.lower.None? || a.lower.value > b.lower.value)) ==> Outranks(a, b)
    ensures (&& a.lower == b.lower && a.drawdown.Some? && a.drawdown.value >= 0.0
             && (b.drawdown.None? || b.drawdown.value < 0.0 || b.drawdown.value > a.drawdown.value))
            ==> Outranks(a, b)
    ensures (&& a.lower == b.lower && a.drawdown == b.drawdown && a.trades.Some? && a.trades.value >= 1.0
             && (b.trades.None? || b.trades.value < 0.0 || a.trades.value >= b.trades.value + 1.0))
            ==> Outranks(a, b)
    ensures (&& a.lower == b.lower && a.drawdown == b.drawdown && a.trades == b.trades && a.delta.Some?
             && (b.delta.None? || a.delta.value > b.delta.value))
            ==> Outranks(a, b)
    ensures (&& a.lower == b.lower && a.drawdown == b.drawdown && a.trades == b.trades && a.delta == b.delta
             && (a.variant > b.variant || (a.variant == b.variant && a.candidate > b.candidate)))
            ==> Outranks(a, b)
    ensures (&& a == b.(drawdown := a.drawdown, trades := a.trades)
             && (a.drawdown == b.drawdown || (a.drawdown.Some? && a.drawdown.value < 0.0 && b.drawdown.None?))
             && (a.trades == b.trades || (a.trades.Some? && a.trades.value < 0.0 && b.trades.None?)))
            ==> EvidenceRank(a) == EvidenceRank(b)
  {
  }

  predicate Ranked(rs: seq<Record>) {
    forall i, j :: 0 <= i < j < |rs| ==> !Outranks(rs[j], rs[i])
  }

  /** Candidates of equal rank are the same candidate. */
  predicate NoTies(m: multiset<Record>) {
    forall x, y :: x in m && y in m && EvidenceRank(x) == EvidenceRank(y) ==> x == y
  }

  lemma InsertKeepsRanked(rs: seq<Record>, r: Record, k: nat)
    requires Ranked(rs) && k <= |rs|
    requires forall i :: k <= i < |rs| ==> Outranks(r, rs[i])
    requires k > 0 ==> !Outranks(r, rs[k - 1])
    ensures Ranked(Inserted(rs, r, k))
  {
    hide EvidenceRank, Rank.Below;
    var s := Inserted(rs, r, k);
    forall i, j | 0 <= i < j < |s|
      ensures !Outranks(s[j], s[i])
    {
      if j == k {
        RankIsTotal(EvidenceRank(rs[i]), EvidenceRank(rs[k - 1]), EvidenceRank(r));
        RankIsTotal(EvidenceRank(rs[k - 1]), EvidenceRank(rs[i]), EvidenceRank(r));
        RankIsTotal(EvidenceRank(rs[i]), EvidenceRank(r), EvidenceRank(rs[k - 1]));
        assert i < k - 1 ==> !Outranks(rs[k - 1], rs[i]);
      } else if i == k {
        RankIsTotal(EvidenceRank(r), EvidenceRank(rs[j - 1]), EvidenceRank(r));
        RankIsTotal(EvidenceRank(rs[j - 1]), EvidenceRank(r), EvidenceRank(r));
      }
    }
  }

  /** Sorts best evidence first. */
  method Sort(records: seq<Record>) returns (ranked: seq<Record>)
    ensures Ranked(ranked) && multiset(ranked) == multiset(records)
  {
    hide EvidenceRank, Rank.Below, Inserted;
    ranked := [];
    var n := 0;
    while n < |records|
      invariant 0 <= n <= |records|
      invariant Ranked(ranked) && multiset(ranked) == multiset(records[..n])
    {
      var r := records[n];
      var k := |ranked|;
      while k > 0 && Outranks(r, ranked[k - 1])
        invariant 0 <= k <= |ranked|
        invariant forall i :: k <= i < |ranked| ==> Outranks(r, ranked[i])
      {
        k := k - 1;
      }
      InsertKeepsRanked(ranked, r, k);
      ranked := Inserted(ranked, r, k);
      n := n + 1;
      assert records[..n] == records[..n - 1] + [r];
    }
    assert records[..n] == records;
  }

  /** Without ties every permutation of the input sorts to the same sequence. */
  lemma {:induction false} SortingForgetsOrder(a: seq<Record>, b: seq<Record>)
    requires Ranked(a) && Ranked(b) && multiset(a) == multiset(b) && NoTies(multiset(a))
    ensures a == b
  {
    hide Ranked, NoTies;
    assert |multiset(a)| == |multiset(b)|;
    if a != [] {
      HeadsAgree(a, b);
      TailsAgree(a, b);
      SortingForgetsOrder(a[1..], b[1..]);
      assert a == [a[0]] + a[1..] && b == [b[0]] + b[1..];
    }
  }

  lemma HeadsAgree(a: seq<Record>, b: seq<Record>)
    requires Ranked(a) && Ranked(b) && multiset(a) == multiset(b) && NoTies(multiset(a)) && |a| > 0 && |b| > 0
    ensures a[0] == b[0]
  {
    hide EvidenceRank, Rank.Below;
    assert a[0] in multiset(b) && b[0] in multiset(a);
    var i :| 0 <= i < |b| && b[i] == a[0];
    var j :| 0 <= j < |a| && a[j] == b[0];
    RankIsTotal(EvidenceRank(a[0]), EvidenceRank(b[0]), EvidenceRank(a[0]));
    assert j > 0 ==> !Outranks(a[j], a[0]);
    assert i > 0 ==> !Outranks(b[i], b[0]);
  }

  lemma TailsAgree(a: seq<Record>, b: seq<Record>)
    requires Ranked(a) && Ranked(b) && multiset(a) == multiset(b) && NoTies(multiset(a))
    requires |a| > 0 && |b| > 0 && a[0] == b[0]
    ensures Ranked(a[1..]) && Ranked(b[1..]) && multiset(a[1..]) == multiset(b[1..]) && NoTies(multiset(a[1..]))
  {
    hide NoTies, Outranks;
    TailOf(a);
    TailOf(b);
    FewerHaveNoTies(multiset(a), multiset(a[1..]));
  }

  lemma TailOf(a: seq<Record>)
    requires |a| > 0
    ensures multiset(a[1..]) == multiset(a) - multiset{a[0]} <= multiset(a)
  {
    assert a == [a[0]] + a[1..];
  }

  lemma FewerHaveNoTies(all: multiset<Record>, some: multiset<Record>)
    requires NoTies(all) && some <= all
    ensures NoTies(some)
  {
    hide EvidenceRank;
  }

  // ---- Dependence

  /** A persisted cluster policy. */
  datatype Policy = Policy(verified: bool, clusters: map<nat, nat>)

  function FrozenCluster(r: Record, policy: Option<Policy>): Option<nat> {
    if policy.Some? && policy.value.verified && r.family in policy.value.clusters
    then Some(policy.value.clusters[r.family])
    else None
  }

  const CORRELATION_THRESHOLD: real := 0.5

  /** What the allocator needs to know besides the candidates. */
  datatype Setting = Setting(slots: nat, policy: Option<Policy>, correlation: (Record, Record) -> real)
  {
    predicate SameCluster(a: Record, b: Record) {
      FrozenCluster(a, policy).Some? && FrozenCluster(a, policy) == FrozenCluster(b, policy)
    }

    /** A lower-ranked candidate may join a higher-ranked one. */
    predicate Compatible(low: Record, high: Record) {
      !SameCluster(low, high) && correlation(low, high) < CORRELATION_THRESHOLD
    }
  }

  /** A verified policy puts both families in one cluster. */
  predicate FrozenTogether(policy: Option<Policy>, a: Record, b: Record) {
    && policy.Some? && policy.value.verified
    && a.family in policy.value.clusters && b.family in policy.value.clusters
    && policy.value.clusters[a.family] == policy.value.clusters[b.family]
  }

  // ---- Greedy admission

  predicate Accepts(s: Setting, rs: seq<Record>, chosen: set<nat>, k: nat)
    requires k < |rs| && forall i :: i in chosen ==> i < |rs|
  {
    |chosen| < s.slots && forall i :: i in chosen ==> s.Compatible(rs[k], rs[i])
  }

  /** The positions admitted among the best `n`. */
  function Greedy(s: Setting, rs: seq<Record>, n: nat): (g: set<nat>)
    requires n <= |rs|
    ensures forall i :: i in g ==> i < n
  {
    if n == 0 then {}
    else
      var g := Greedy(s, rs, n - 1);
      if Accepts(s, rs, g, n - 1) then g + {n - 1} else g
  }

  /** A set the allocator could have chosen. */
  predicate Feasible(s: Setting, rs: seq<Record>, chosen: set<nat>) {
    && (forall i :: i in chosen ==> i < |rs|)
    && |chosen| <= s.slots
    && (forall i, j :: i in chosen && j in chosen && j < i ==> s.Compatible(rs[i], rs[j]))
  }

  lemma {:induction false} GreedyIsFeasible(s: Setting, rs: seq<Record>, n: nat)
    requires n <= |rs|
    ensures Feasible(s, rs, Greedy(s, rs, n))
  {
    hide Feasible, Accepts;
    if n == 0 {
      NoneIsFeasible(s, rs);
    } else {
      GreedyIsFeasible(s, rs, n - 1);
      if Accepts(s, rs, Greedy(s, rs, n - 1), n - 1) {
        FeasibleGrows(s, rs, Greedy(s, rs, n - 1), n - 1);
      }
    }
  }

  /**
   * What is admitted together: no two families that a verified policy puts in one cluster, and nothing correlated
   * with a better one at a half or more.
   */
  lemma AdmittedAreIndependent(s: Setting, rs: seq<Record>, better: nat, worse: nat)
    requires better < worse < |rs|
    ensures s.Compatible(rs[worse], rs[better]) <==>
            !FrozenTogether(s.policy, rs[worse], rs[better]) && s.correlation(rs[worse], rs[better]) < 0.5
    ensures better in Greedy(s, rs, |rs|) && worse in Greedy(s, rs, |rs|) ==>
              !FrozenTogether(s.policy, rs[worse], rs[better]) && s.correlation(rs[worse], rs[better]) < 0.5
  {
    GreedyIsFeasible(s, rs, |rs|);
  }

  lemma NoneIsFeasible(s: Setting, rs: seq<Record>)
    ensures Feasible(s, rs, {})
  {
  }

  lemma FeasibleGrows(s: Setting, rs: seq<Record>, g: set<nat>, k: nat)
    requires k < |rs| && Feasible(s, rs, g) && (forall i :: i in g ==> i < k) && Accepts(s, rs, g, k)
    ensures Feasible(s, rs, g + {k})
  {
  }

  /** A feasible set agrees that each of its members may join the better ones. */
  lemma MembersAreAccepted(s: Setting, rs: seq<Record>, g: set<nat>, rival: set<nat>, d: nat)
    requires d < |rs| && Feasible(s, rs, rival) && d in rival && g <= rival && (forall i :: i in g ==> i < d)
    ensures Accepts(s, rs, g, d)
  {
    hide Setting.Compatible;
    SubsetIsSmaller(g + {d}, rival);
    assert |g + {d}| == |g| + 1;
  }

  /** Later candidates never undo earlier choices. */
  lemma {:induction false} GreedyIsStable(s: Setting, rs: seq<Record>, m: nat, n: nat, i: nat)
    requires i < m <= n <= |rs|
    ensures i in Greedy(s, rs, m) <==> i in Greedy(s, rs, n)
  {
    if m < n {
      GreedyIsStable(s, rs, m, n - 1, i);
    }
  }

  /** The best position at which a feasible set and the greedy one differ is one the greedy set holds. */
  lemma GreedyWinsAtTheFirstDifference(s: Setting, rs: seq<Record>, rival: set<nat>, d: nat)
    requires Feasible(s, rs, rival) && d < |rs|
    requires forall i :: 0 <= i < d ==> (i in rival <==> i in Greedy(s, rs, |rs|))
    requires d in rival <==> d !in Greedy(s, rs, |rs|)
    ensures d in Greedy(s, rs, |rs|)
  {
    hide Feasible, Accepts;
    var g := Greedy(s, rs, d);
    GreedyIsStable(s, rs, d + 1, |rs|, d);
    forall i | i in g
      ensures i in rival
    {
      GreedyIsStable(s, rs, d, |rs|, i);
    }
    if d in rival {
      MembersAreAccepted(s, rs, g, rival, d);
    }
  }

  lemma {:induction false} SubsetIsSmaller(a: set<nat>, b: set<nat>)
    requires a <= b
    ensures |a| <= |b|
  {
    if a != {} {
      var x :| x in a;
      SubsetIsSmaller(a - {x}, b - {x});
    }
  }

  /** The greedy set is the lexicographically best feasible set. */
  lemma GreedyIsLexicographicallyBest(s: Setting, rs: seq<Record>, rival: set<nat>)
    requires Feasible(s, rs, rival) && rival != Greedy(s, rs, |rs|)
    ensures exists d :: (&& 0 <= d < |rs|
                         && d in Greedy(s, rs, |rs|)
                         && d !in rival
                         && (forall i :: 0 <= i < d ==> (i in rival <==> i in Greedy(s, rs, |rs|))))
  {
    var d := FirstDifference(rival, Greedy(s, rs, |rs|), |rs|);
    GreedyWinsAtTheFirstDifference(s, rs, rival, d);
  }

  lemma FirstDifference(a: set<nat>, b: set<nat>, n: nat) returns (d: nat)
    requires a != b && (forall i :: i in a + b ==> i < n)
    ensures d < n && (d in a <==> d !in b)
    ensures forall i :: 0 <= i < d ==> (i in a <==> i in b)
  {
    d := 0;
    while d < n && (d in a <==> d in b)
      invariant 0 <= d <= n
      invariant forall i :: 0 <= i < d ==> (i in a <==> i in b)
    {
      d := d + 1;
    }
    if d == n {
      forall i: nat
        ensures i in a <==> i in b
      {
        assert i in a || i in b ==> i in a + b;
      }
    }
  }

  // ---- The allocation

  datatype Reason = NoSlot | Clustered(peer: Record) | Correlated(peer: Record, value: real)

  datatype Rejection = Rejection(record: Record, reason: Reason)

  /** Records at the chosen positions below `n`, best first. */
  function Chosen(rs: seq<Record>, g: set<nat>, n: nat): seq<Record>
    requires n <= |rs|
  {
    if n == 0 then [] else Chosen(rs, g, n - 1) + if n - 1 in g then [rs[n - 1]] else []
  }

  function Records(rejected: seq<Rejection>): (r: seq<Record>)
    ensures |r| == |rejected|
  {
    seq(|rejected|, i requires 0 <= i < |rejected| => rejected[i].record)
  }

  /** A reason holds against what had been admitted. */
  predicate Justified(s: Setting, admitted: seq<Record>, r: Rejection) {
    match r.reason
    case NoSlot => |admitted| == s.slots
    case Clustered(peer) => peer in admitted && s.SameCluster(r.record, peer)
    case Correlated(peer, value) =>
      peer in admitted && value == s.correlation(r.record, peer) >= CORRELATION_THRESHOLD
  }

  /** The strongest of the admitted candidates this one is too correlated with. */
  method WorstPeer(s: Setting, r: Record, admitted: seq<Record>) returns (worst: Option<Rejection>)
    ensures worst.None? <==> forall p :: p in admitted ==> s.correlation(r, p) < CORRELATION_THRESHOLD
    ensures worst.Some? ==>
              (&& worst.value.record == r
               && worst.value.reason.Correlated?
               && Justified(s, admitted, worst.value)
               && (forall p :: p in admitted ==> s.correlation(r, p) <= worst.value.reason.value))
  {
    worst := None;
    var k := 0;
    while k < |admitted|
      invariant 0 <= k <= |admitted|
      invariant worst.None? ==> forall i :: 0 <= i < k ==> s.correlation(r, admitted[i]) < CORRELATION_THRESHOLD
      invariant worst.Some? ==>
                  (&& worst.value.record == r
                   && worst.value.reason.Correlated?
                   && worst.value.reason.peer in admitted
                   && worst.value.reason.value == s.correlation(r, worst.value.reason.peer) >= CORRELATION_THRESHOLD
                   && (forall i :: 0 <= i < k ==> s.correlation(r, admitted[i]) <= worst.value.reason.value))
    {
      var value := s.correlation(r, admitted[k]);
      if value >= CORRELATION_THRESHOLD && (worst.None? || value > worst.value.reason.value) {
        worst := Some(Rejection(r, Correlated(admitted[k], value)));
      }
      k := k + 1;
    }
  }

  /** The clusters represented so far, each with its admitted candidate. */
  predicate Represented(s: Setting, clusters: map<nat, Record>, admitted: seq<Record>) {
    && (forall c :: c in clusters ==> clusters[c] in admitted && FrozenCluster(clusters[c], s.policy) == Some(c))
    && (forall p :: p in admitted && FrozenCluster(p, s.policy).Some? ==>
                      FrozenCluster(p, s.policy).value in clusters)
  }

  predicate AllJustified(s: Setting, admitted: seq<Record>, rejected: seq<Rejection>) {
    forall r :: r in rejected ==> Justified(s, admitted, r)
  }

  /** Nothing admitted speaks against this candidate, and a slot is free. */
  predicate Welcome(s: Setting, r: Record, admitted: seq<Record>) {
    |admitted| < s.slots && forall p :: p in admitted ==> s.Compatible(r, p)
  }

  /** One candidate's turn: a reason to reject it, or none. */
  method Consider(s: Setting, r: Record, admitted: seq<Record>, clusters: map<nat, Record>)
    returns (refusal: Option<Rejection>)
    requires |admitted| <= s.slots && Represented(s, clusters, admitted)
    ensures refusal.None? <==> Welcome(s, r, admitted)
    ensures refusal.Some? ==> refusal.value.record == r && Justified(s, admitted, refusal.value)
  {
    if |admitted| >= s.slots {
      return Some(Rejection(r, NoSlot));
    }
    var cluster := FrozenCluster(r, s.policy);
    if cluster.Some? && cluster.value in clusters {
      return Some(Rejection(r, Clustered(clusters[cluster.value])));
    }
    refusal := WorstPeer(s, r, admitted);
    if refusal.Some? {
      var peer := refusal.value.reason.peer;
      assert !s.Compatible(r, peer);
    }
  }

  method Note(s: Setting, r: Record, admitted: seq<Record>, rejected: seq<Rejection>, clusters: map<nat, Record>)
    returns (after: map<nat, Record>)
    requires Represented(s, clusters, admitted) && Welcome(s, r, admitted) && AllJustified(s, admitted, rejected)
    ensures Represented(s, after, admitted + [r]) && AllJustified(s, admitted + [r], rejected)
  {
    after := clusters;
    var cluster := FrozenCluster(r, s.policy);
    if cluster.Some? {
      after := clusters[cluster.value := r];
    }
  }

  /**
   * The greedy pass over ranked candidates: what is admitted is the greedy choice, every candidate is admitted
   * or rejected, and every rejection's reason holds of the final admissions.
   */
  method Admit(s: Setting, rs: seq<Record>) returns (admitted: seq<Record>, rejected: seq<Rejection>)
    ensures admitted == Chosen(rs, Greedy(s, rs, |rs|), |rs|)
    ensures multiset(admitted) + multiset(Records(rejected)) == multiset(rs)
    ensures |admitted| <= s.slots && AllJustified(s, admitted, rejected)
  {
    admitted, rejected := [], [];
    var clusters: map<nat, Record> := map[];
    Start(s, rs);
    hide Represented, AllJustified, Justified, Welcome, Greedy, Chosen;
    var k := 0;
    while k < |rs|
      invariant 0 <= k <= |rs|
      invariant admitted == Chosen(rs, Greedy(s, rs, k), k)
      invariant multiset(admitted) + multiset(Records(rejected)) == multiset(rs[..k])
      invariant |admitted| <= s.slots
      invariant AllJustified(s, admitted, rejected) && Represented(s, clusters, admitted)
    {
      var r := rs[k];
      ChosenIs(s, rs, k);
      assert rs[..k + 1] == rs[..k] + [r];
      var refusal := Consider(s, r, admitted, clusters);
      if refusal.Some? {
        assert Records(rejected + [refusal.value]) == Records(rejected) + [r];
        OneMoreRejection(s, admitted, rejected, refusal.value);
        rejected := rejected + [refusal.value];
      } else {
        clusters := Note(s, r, admitted, rejected, clusters);
        HasRoom(s, r, admitted);
        admitted := admitted + [r];
      }
      k := k + 1;
    }
    assert rs[..k] == rs;
  }

  lemma Start(s: Setting, rs: seq<Record>)
    ensures Represented(s, map[], []) && AllJustified(s, [], []) && Chosen(rs, Greedy(s, rs, 0), 0) == []
  {
  }

  lemma OneMoreRejection(s: Setting, admitted: seq<Record>, rejected: seq<Rejection>, r: Rejection)
    requires AllJustified(s, admitted, rejected) && Justified(s, admitted, r)
    ensures AllJustified(s, admitted, rejected + [r])
  {
  }

  lemma HasRoom(s: Setting, r: Record, admitted: seq<Record>)
    requires Welcome(s, r, admitted)
    ensures |admitted| < s.slots
  {
  }

  /** The records chosen so far decide the next one just as their positions do. */
  lemma ChosenIs(s: Setting, rs: seq<Record>, k: nat)
    requires k < |rs|
    ensures var g := Greedy(s, rs, k);
            var admitted := Chosen(rs, g, k);
            && (Accepts(s, rs, g, k) <==> Welcome(s, rs[k], admitted))
            && Chosen(rs, Greedy(s, rs, k + 1), k + 1) ==
               if Welcome(s, rs[k], admitted) then admitted + [rs[k]] else admitted
  {
    hide Setting.Compatible;
    var g := Greedy(s, rs, k);
    ChosenSize(rs, g, k);
    ChosenMembers(rs, g, k);
    if Accepts(s, rs, g, k) {
      ChosenUnchanged(rs, g, g + {k}, k);
    }
  }

  lemma {:induction false} ChosenSize(rs: seq<Record>, g: set<nat>, n: nat)
    requires n <= |rs| && forall i :: i in g ==> i < n
    ensures |Chosen(rs, g, n)| == |g|
  {
    if n == 0 {
      assert g == {};
    } else if n - 1 in g {
      var rest := g - {n - 1};
      ChosenSize(rs, rest, n - 1);
      ChosenUnchanged(rs, g, rest, n - 1);
      assert g == rest + {n - 1};
    } else {
      ChosenSize(rs, g, n - 1);
    }
  }

  lemma {:induction false} ChosenUnchanged(rs: seq<Record>, a: set<nat>, b: set<nat>, n: nat)
    requires n <= |rs| && forall i :: 0 <= i < n ==> (i in a <==> i in b)
    ensures Chosen(rs, a, n) == Chosen(rs, b, n)
  {
    if n > 0 {
      ChosenUnchanged(rs, a, b, n - 1);
    }
  }

  lemma {:induction false} ChosenMembers(rs: seq<Record>, g: set<nat>, n: nat)
    requires n <= |rs|
    ensures forall p :: p in Chosen(rs, g, n) <==> exists i :: 0 <= i < n && i in g && rs[i] == p
  {
    if n > 0 {
      ChosenMembers(rs, g, n - 1);
    }
  }

  /** The whole allocation: rank, then admit. */
  method Allocate(s: Setting, records: seq<Record>)
    returns (admitted: seq<Record>, rejected: seq<Rejection>, ghost ranked: seq<Record>)
    ensures Ranked(ranked) && multiset(ranked) == multiset(records)
    ensures admitted == Chosen(ranked, Greedy(s, ranked, |ranked|), |ranked|)
    ensures multiset(admitted) + multiset(Records(rejected)) == multiset(records)
    ensures |admitted| <= s.slots && AllJustified(s, admitted, rejected)
  {
    var rs := Sort(records);
    ranked := rs;
    admitted, rejected := Admit(s, rs);
  }

  /** Two runs over the same candidates in any order admit the same sequence, when no two candidates tie. */
  method AllocateAgain(s: Setting, records: seq<Record>, permuted: seq<Record>)
    returns (first: seq<Record>, second: seq<Record>)
    requires multiset(records) == multiset(permuted) && NoTies(multiset(records))
    ensures first == second
  {
    var a, _, x := Allocate(s, records);
    var b, _, y := Allocate(s, permuted);
    SortingForgetsOrder(x, y);
    first, second := a, b;
  }
}
