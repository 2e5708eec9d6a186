/** The rotating selection strategy: one counter per group key. */
module RoundRobin {
  import opened Bytes

  type Counters = map<string, u64>

  function CounterOf(next: Counters, key: string): u64
  {
    if key in next then next[key] else 0
  }

  /** The index Select returns for a group of n candidates, and the counter it leaves. */
  function Chosen(idx: u64, n: nat): (i: nat)
    requires n > 0
    ensures i < n
  {
    idx % n
  }

  function Next(idx: u64, n: nat): (r: u64)
    requires n > 0
    ensures r < n
  {
    RemainderAtMost((idx + 1) % TWO64, n);
    ((idx + 1) % TWO64) % n
  }

  lemma RemainderAtMost(v: nat, n: nat)
    requires n > 0
    ensures v % n <= v
  {
    assert v == (v / n) * n + v % n;
  }

  class RoundRobinStrategy {
    var next: Counters

    constructor ()
      ensures next == map[]
    {
      next := map[];
    }

    /** Picks among n candidates; the caller returns early when there are none. */
    method Select(groupKey: string, n: nat) returns (i: nat)
      requires n > 0
      modifies this
      ensures i == Chosen(CounterOf(old(next), groupKey), n)
      ensures next == old(next)[groupKey := Next(CounterOf(old(next), groupKey), n)]
    {
      var idx := if groupKey in next then next[groupKey] else 0;
      next := next[groupKey := Next(idx, n)];
      i := idx % n;
    }
  }

  // ── Group keys ──────────────────────────────────────────────────────────────

  function GroupKey(topic: string, group: string): string
  {
    topic + "|" + group
  }

  /** Within one topic, different groups never share a counter. */
  lemma GroupKeyInjective(topic: string)
    ensures forall g, g' :: GroupKey(topic, g) == GroupKey(topic, g') ==> g == g'
  {
    forall g, g' | GroupKey(topic, g) == GroupKey(topic, g') ensures g == g' {
      assert GroupKey(topic, g)[|topic| + 1..] == g && GroupKey(topic, g')[|topic| + 1..] == g';
    }
  }

  /** Two (topic, group) pairs share a counter exactly when they are equal or one
      topic continues the other past a '|' that the other's group makes up for. */
  lemma SameGroupKeyIff(t: string, g: string, t': string, g': string)
    ensures GroupKey(t, g) == GroupKey(t', g')
            <==> || (t == t' && g == g')
                 || (exists x :: t' == t + "|" + x && g == x + "|" + g')
                 || (exists x :: t == t' + "|" + x && g' == x + "|" + g)
  {
    if GroupKey(t, g) == GroupKey(t', g') {
      if |t| < |t'| {
        LongerTopic(t, g, t', g');
      } else if |t'| < |t| {
        LongerTopic(t', g', t, g);
      } else {
        assert t == GroupKey(t, g)[..|t|] && g == GroupKey(t, g)[|t| + 1..];
        assert t' == GroupKey(t', g')[..|t|] && g' == GroupKey(t', g')[|t| + 1..];
      }
    }
    forall x | t' == t + "|" + x && g == x + "|" + g' ensures GroupKey(t, g) == GroupKey(t', g') {
      assert t + "|" + (x + "|" + g') == t + "|" + x + "|" + g';
    }
    forall x | t == t' + "|" + x && g' == x + "|" + g ensures GroupKey(t, g) == GroupKey(t', g') {
      assert t' + "|" + (x + "|" + g) == t' + "|" + x + "|" + g;
    }
  }

  lemma TwoGroupsOneKey()
    ensures GroupKey("a|b", "c") == GroupKey("a", "b|c")
  {
    assert "a|b" == "a" + "|" + "b" && "b|c" == "b" + "|" + "c";
    SameGroupKeyIff("a|b", "c", "a", "b|c");
  }

  lemma LongerTopic(t: string, g: string, t': string, g': string)
    requires GroupKey(t, g) == GroupKey(t', g') && |t| < |t'|
    ensures exists x :: t' == t + "|" + x && g == x + "|" + g'
  {
    var k, x := GroupKey(t, g), t'[|t| + 1..];
    assert k[..|t|] == t && k[|t|..|t| + 1] == "|" && k[|t| + 1..] == g;
    assert k[..|t'|] == t' && k[|t'|..|t'| + 1] == "|" && k[|t'| + 1..] == g';
    assert t' == k[..|t|] + k[|t|..|t| + 1] + k[|t| + 1..|t'|] && x == k[|t| + 1..|t'|];
    assert g == k[|t| + 1..|t'|] + k[|t'|..|t'| + 1] + k[|t'| + 1..];
    assert t' == t + "|" + x && g == x + "|" + g';
  }

  // ── Fairness ────────────────────────────────────────────────────────────────

  /** One selection among `size` candidates under some group key. */
  datatype Selection = Selection(key: string, size: nat)

  predicate Sized(run: seq<Selection>)
  {
    forall i :: 0 <= i < |run| ==> 0 < run[i].size < TWO64
  }

  function After(next: Counters, run: seq<Selection>): Counters
    requires Sized(run)
  {
    if run == [] then next
    else
      var m, s := After(next, run[..|run| - 1]), run[|run| - 1];
      m[s.key := Next(CounterOf(m, s.key), s.size)]
  }

  /** How often candidate i was chosen under this key. */
  function TimesChosen(next: Counters, run: seq<Selection>, key: string, i: nat): nat
    requires Sized(run)
  {
    if run == [] then 0
    else
      var init, s := run[..|run| - 1], run[|run| - 1];
      TimesChosen(next, init, key, i)
        + if s.key == key && Chosen(CounterOf(After(next, init), key), s.size) == i then 1 else 0
  }

  /** One more selection under the key. */
  lemma SelectMore(next: Counters, run: seq<Selection>, last: Selection, i: nat)
    requires Sized(run) && 0 < last.size < TWO64
    ensures Sized(run + [last])
    ensures var idx := CounterOf(After(next, run), last.key);
            && CounterOf(After(next, run + [last]), last.key) == Next(idx, last.size)
            && TimesChosen(next, run + [last], last.key, i)
               == TimesChosen(next, run, last.key, i) + if Chosen(idx, last.size) == i then 1 else 0
  {
    hide Next;
    hide Chosen;
    assert (run + [last])[..|run|] == run;
  }

  /** Distance from candidate s to candidate i, walking forward around n. */
  function Ahead(s: nat, i: nat, n: nat): nat
    requires s < n && i < n
  {
    if i >= s then i - s else i - s + n
  }

  /** Where the rotation stands: `laps` full rounds from s and `steps` beyond. */
  predicate Standing(next: Counters, run: seq<Selection>, key: string, n: nat, s: nat, laps: nat, steps: nat)
    requires Sized(run) && s < n
  {
    && steps < n
    && Chosen(CounterOf(After(next, run), key), n) == (if s + steps < n then s + steps else s + steps - n)
    && CounterOf(After(next, run), key) < TWO64 - 1
    && forall i :: 0 <= i < n ==>
         TimesChosen(next, run, key, i) == laps + if Ahead(s, i, n) < steps then 1 else 0
  }

  lemma {:induction false} RotationStands(next: Counters, run: seq<Selection>, key: string, n: nat)
    returns (laps: nat, steps: nat)
    requires Sized(run) && 0 < n < TWO64 && CounterOf(next, key) < TWO64 - 1
    requires forall i :: 0 <= i < |run| && run[i].key == key ==> run[i].size == n
    ensures Standing(next, run, key, n, Chosen(CounterOf(next, key), n), laps, steps)
  {
    var s := Chosen(CounterOf(next, key), n);
    if run == [] {
      laps, steps := 0, 0;
    } else {
      var init, last := run[..|run| - 1], run[|run| - 1];
      laps, steps := RotationStands(next, init, key, n);
      if last.key == key {
        laps, steps := OneMore(next, run, key, n, s, laps, steps);
      } else {
        assert CounterOf(After(next, run), key) == CounterOf(After(next, init), key);
      }
    }
  }

  lemma OneMore(next: Counters, run: seq<Selection>, key: string, n: nat, s: nat, laps: nat, steps: nat)
    returns (laps': nat, steps': nat)
    requires Sized(run) && run != [] && run[|run| - 1] == Selection(key, n) && s < n
    requires Standing(next, run[..|run| - 1], key, n, s, laps, steps)
    ensures Standing(next, run, key, n, s, laps', steps')
  {
    var init := run[..|run| - 1];
    var idx, at := CounterOf(After(next, init), key), Chosen(CounterOf(After(next, init), key), n);
    laps', steps' := if steps + 1 == n then laps + 1 else laps, if steps + 1 == n then 0 else steps + 1;
    Successor(idx, n);
    assert CounterOf(After(next, run), key) == Next(idx, n);
    assert Ahead(s, at, n) == steps;
    forall i | 0 <= i < n
      ensures TimesChosen(next, run, key, i) == laps' + if Ahead(s, i, n) < steps' then 1 else 0
    {
      assert i == at <==> Ahead(s, i, n) == steps;
      assert TimesChosen(next, run, key, i) == TimesChosen(next, init, key, i) + if at == i then 1 else 0;
    }
  }

  lemma Successor(idx: u64, n: nat)
    requires 0 < n < TWO64 && idx < TWO64 - 1
    ensures Next(idx, n) == if idx % n + 1 == n then 0 else idx % n + 1
    ensures Next(idx, n) % n == Next(idx, n) && Next(idx, n) < TWO64 - 1
  {
    var q, r := idx / n, idx % n;
    assert idx + 1 == q * n + (r + 1);
    if r + 1 == n {
      assert idx + 1 == (q + 1) * n + 0;
      Remainder(idx + 1, n, q + 1, 0);
    } else {
      Remainder(idx + 1, n, q, r + 1);
    }
    Remainder(Next(idx, n), n, 0, Next(idx, n));
  }

  lemma Remainder(v: nat, n: nat, q: nat, r: nat)
    requires n > 0 && v == q * n + r && r < n
    ensures v % n == r
  {
    var d := v / n - q;
    assert v == (v / n) * n + v % n;
    assert d * n == r - v % n;
    assert d >= 1 ==> d * n >= n;
    assert d <= -1 ==> d * n + n <= 0;
  }

  /** Fairness: in any interleaving of selections, from any counter, while the
      selections under one key see the same number of candidates, any two of
      those candidates are chosen equally often or once apart. */
  lemma Fair(next: Counters, run: seq<Selection>, key: string, n: nat, i: nat, j: nat)
    requires Sized(run) && 0 < n < TWO64 && CounterOf(next, key) < TWO64 - 1 && i < n && j < n
    requires forall k :: 0 <= k < |run| && run[k].key == key ==> run[k].size == n
    ensures -1 <= TimesChosen(next, run, key, i) - TimesChosen(next, run, key, j) <= 1
  {
    var laps, steps := RotationStands(next, run, key, n);
  }
}
