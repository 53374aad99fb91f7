/** The value a `timer_list` stands for, and the two list walks that change it. */
module TimerQueue {

  /** One ril_timer_add call: `stamp` numbers the calls, `deadline` is in microseconds. */
  datatype Timer = Timer(stamp: nat, deadline: int)

  /** The order in which timers fire: earlier deadline first, equal deadlines newest first. */
  predicate Before(a: Timer, b: Timer) {
    a.deadline < b.deadline || (a.deadline == b.deadline && b.stamp < a.stamp)
  }

  ghost predicate Ordered(q: seq<Timer>) {
    forall i, j :: 0 <= i < j < |q| ==> Before(q[i], q[j])
  }

  ghost predicate StampsBelow(q: seq<Timer>, n: nat) {
    forall i :: 0 <= i < |q| ==> q[i].stamp < n
  }

  /**
   * The first timer, from position `from` on, that is due at d or later. ril_timer_add walks to it to insert
   * a timer due at d; at time d, processTimeouts takes everything in front of it.
   */
  function FirstDueAt(q: seq<Timer>, d: int, from: nat := 0): (k: nat)
    requires from <= |q|
    ensures from <= k <= |q|
    ensures forall i :: from <= i < k ==> q[i].deadline < d
    ensures k < |q| ==> d <= q[k].deadline
    decreases |q| - from
  {
    if from == |q| || d <= q[from].deadline then from else FirstDueAt(q, d, from + 1)
  }

  function Insert(q: seq<Timer>, t: Timer): (r: seq<Timer>)
    ensures |r| == |q| + 1
    ensures forall i :: 0 <= i < |r| ==>
      var k := FirstDueAt(q, t.deadline);
      r[i] == if i < k then q[i] else if i == k then t else q[i - 1]
  {
    var k := FirstDueAt(q, t.deadline);
    q[..k] + [t] + q[k..]
  }

  /** The walk's stopping place is determined by the two facts in its contract. */
  lemma FirstDueAtUnique(q: seq<Timer>, d: int, k: nat)
    requires k <= |q|
    requires forall i :: 0 <= i < k ==> q[i].deadline < d
    requires k < |q| ==> d <= q[k].deadline
    ensures k == FirstDueAt(q, d)
  {
  }

  /** Inserting a younger timer keeps the list in firing order. */
  lemma InsertOrdered(q: seq<Timer>, t: Timer)
    requires Ordered(q) && StampsBelow(q, t.stamp)
    ensures Ordered(Insert(q, t)) && StampsBelow(Insert(q, t), t.stamp + 1)
  {
  }

  lemma InsertMembers(q: seq<Timer>, t: Timer, x: Timer)
    ensures x in Insert(q, t) <==> x in q || x == t
  {
    var k := FirstDueAt(q, t.deadline);
    assert Insert(q, t) == q[..k] + [t] + q[k..] && q == q[..k] + q[k..];
  }

  ghost predicate DistinctStamps(q: seq<Timer>) {
    forall i, j :: 0 <= i < j < |q| ==> q[i].stamp != q[j].stamp
  }

  lemma InsertDistinct(q: seq<Timer>, t: Timer)
    requires DistinctStamps(q) && StampsBelow(q, t.stamp)
    ensures DistinctStamps(Insert(q, t))
  {
  }

  /** Behind a prefix that is all earlier, insertion happens in the rest. */
  lemma InsertBehind(p: seq<Timer>, q: seq<Timer>, t: Timer)
    requires forall i :: 0 <= i < |p| ==> p[i].deadline < t.deadline
    ensures Insert(p + q, t) == p + Insert(q, t)
  {
    var k := FirstDueAt(q, t.deadline);
    assert forall i :: |p| <= i < |p| + k ==> (p + q)[i] == q[i - |p|];
    FirstDueAtUnique(p + q, t.deadline, |p| + k);
    assert (p + q)[..|p| + k] == p + q[..k] && (p + q)[|p| + k..] == q[k..];
  }

  lemma OrderedSuffix(q: seq<Timer>, k: nat, n: nat)
    requires k <= |q| && Ordered(q) && StampsBelow(q, n)
    ensures Ordered(q[k..]) && StampsBelow(q[k..], n)
  {
  }

  /** In firing order, exactly the timers whose deadline has strictly passed are taken. */
  lemma ExpiredIsAllDue(q: seq<Timer>, now: int)
    requires Ordered(q)
    ensures forall i :: 0 <= i < |q| ==> (i < FirstDueAt(q, now) <==> q[i].deadline < now)
  {
  }

  /** The wait that calcNextTimeout computes from the first timer. */
  function TimeToFirst(q: seq<Timer>, now: int): nat
    requires q != []
  {
    if now < q[0].deadline then q[0].deadline - now else 0
  }

  /** max(0, deadline - now) */
  function Wait(t: Timer, now: int): nat {
    if now < t.deadline then t.deadline - now else 0
  }

  /** In firing order that wait is the least wait of all listed timers. */
  lemma TimeToFirstIsLeast(q: seq<Timer>, now: int)
    requires q != [] && Ordered(q)
    ensures forall t :: t in q ==> TimeToFirst(q, now) <= Wait(t, now)
    ensures exists t :: t in q && TimeToFirst(q, now) == Wait(t, now)
  {
    assert q[0] in q && TimeToFirst(q, now) == Wait(q[0], now);
  }
}
