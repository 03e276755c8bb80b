/** Laws of the events of nested programs: lists one behind the other, rounds one behind the other, and how often each
    event happens. */
module FwTraceLaws {
  import opened FwLoops

  /** A list in two parts does the events of the first and, if that comes to its end, those of the second. */
  lemma {:induction false} RunInParts(a: seq<Item>, b: seq<Item>, m: nat)
    ensures var first, rest := Run(a, m), Run(b, m);
      Run(a + b, m) == if first.1 then (first.0 + rest.0, rest.1) else first
    decreases |a|
  {
    hide RunItem;
    if a == [] {
      assert a + b == b && [] + Run(b, m).0 == Run(b, m).0;
    } else {
      assert (a + b)[0] == a[0] && (a + b)[1..] == a[1..] + b;
      RunInParts(a[1..], b, m);
      var first, rest, last := RunItem(a[0], m), Run(a[1..], m), Run(b, m);
      assert first.0 + (rest.0 + last.0) == (first.0 + rest.0) + last.0;
    }
  }

  lemma OneAction(id: nat, m: nat)
    ensures Run([Action(id)], m) == ([Did(id)], true)
  {
    assert [Action(id)][1..] == [] && [Did(id)] + [] == [Did(id)];
  }

  /** One round is a poll and the body; rounds are separated by pauses, and none stands at either end. */
  lemma {:induction false} RoundsInParts(round: (seq<Event>, bool), sleep: int, j: nat, k: nat)
    requires round.1 && j > 0 && k > 0
    ensures Times(round, sleep, 1) == ([Polled] + round.0, true)
    ensures Times(round, sleep, j + k).0 == Times(round, sleep, j).0 + ([Paused(sleep)] + Times(round, sleep, k).0)
    decreases j
  {
    var once := [Polled] + round.0;
    if j > 1 {
      RoundsInParts(round, sleep, j - 1, k);
      var a, b := Times(round, sleep, j - 1).0, Times(round, sleep, k).0;
      assert once + ([Paused(sleep)] + (a + ([Paused(sleep)] + b))) == (once + ([Paused(sleep)] + a)) + ([Paused(sleep)] + b);
    }
  }

  function Count(e: Event, trace: seq<Event>): nat {
    if trace == [] then 0 else (if trace[0] == e then 1 else 0) + Count(e, trace[1..])
  }

  lemma {:induction false} CountAppends(e: Event, a: seq<Event>, b: seq<Event>)
    ensures Count(e, a + b) == Count(e, a) + Count(e, b)
  {
    if a == [] {
      assert a + b == b;
    } else {
      assert (a + b)[1..] == a[1..] + b;
      CountAppends(e, a[1..], b);
    }
  }

  lemma CountOne(e: Event, f: Event)
    ensures Count(e, [f]) == if e == f then 1 else 0
  {
    assert [f][1..] == [];
  }

  /** A loop of count rounds does each event of its body count times, polls once in each round, and pauses once between
      two rounds. */
  lemma {:induction false} LoopCounts(count: int, sleep: int, body: seq<Item>, m: nat, e: Event)
    requires count > 0 && Run(body, m).1
    ensures Count(e, RunItem(Repeat(count, sleep, body), m).0)
         == count * Count(e, Run(body, m).0) + (if e == Polled then count else 0) + (if e == Paused(sleep) then count - 1 else 0)
  {
    TimesCount(Run(body, m), sleep, count, e);
  }

  lemma {:induction false} TimesCount(round: (seq<Event>, bool), sleep: int, k: nat, e: Event)
    requires k > 0 && round.1
    ensures Count(e, Times(round, sleep, k).0)
         == k * Count(e, round.0) + (if e == Polled then k else 0) + (if e == Paused(sleep) then k - 1 else 0)
    decreases k
  {
    hide Count;
    CountAppends(e, [Polled], round.0);
    CountOne(e, Polled);
    CountOne(e, Paused(sleep));
    if k > 1 {
      TimesCount(round, sleep, k - 1, e);
      var rest := Times(round, sleep, k - 1).0;
      CountAppends(e, [Paused(sleep)], rest);
      CountAppends(e, [Polled] + round.0, [Paused(sleep)] + rest);
      assert k * Count(e, round.0) == Count(e, round.0) + (k - 1) * Count(e, round.0);
    }
  }

  /** How often an action is done in nested loops: the product of the counts around it. */
  function Occurrences(id: nat, items: seq<Item>): nat
    requires AllFinite(items)
    decreases items
  {
    if items == [] then 0 else OccurrencesIn(id, items[0]) + Occurrences(id, items[1..])
  }

  function OccurrencesIn(id: nat, item: Item): nat
    requires Finite(item)
    decreases item
  {
    match item
    case Action(n) => if n == id then 1 else 0
    case Repeat(count, _, body) => count * Occurrences(id, body)
  }

  lemma {:induction false} ActionsCounted(id: nat, items: seq<Item>, m: nat)
    requires AllFinite(items)
    ensures Count(Did(id), Run(items, m).0) == Occurrences(id, items)
    decreases items
  {
    hide Count;
    if items == [] {
      NothingCounted(Did(id));
    } else {
      ActionCounted(id, items[0], m);
      ActionsCounted(id, items[1..], m);
      FiniteItemEnds(items[0], m);
      CountAppends(Did(id), RunItem(items[0], m).0, Run(items[1..], m).0);
    }
  }

  lemma NothingCounted(e: Event)
    ensures Count(e, []) == 0
  {
  }

  lemma {:induction false} ActionCounted(id: nat, item: Item, m: nat)
    requires Finite(item)
    ensures Count(Did(id), RunItem(item, m).0) == OccurrencesIn(id, item)
    decreases item
  {
    match item {
      case Action(n) => CountOne(Did(id), Did(n));
      case Repeat(count, sleep, body) =>
        FiniteEnds(body, m);
        ActionsCounted(id, body, m);
        LoopCounts(count, sleep, body, m, Did(id));
    }
  }
}
