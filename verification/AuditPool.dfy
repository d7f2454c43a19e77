/**
 run-audits-parallel.ts: workers share a cursor; each claims the next script, waits
 for its process, records the result and claims again. Which process ends next is
 left open, so what is proved holds under every completion order.
 */
module AuditPool {
  import opened Wrappers
  import opened Collections

  /** A JavaScript number as `Number(...)` yields it. */
  datatype Number = NaN | Infinite(negative: bool) | Finite(value: real)

  /** The clamp at the end of parseArgs. */
  function Concurrency(n: Number): (c: real)
    ensures c >= 1.0
    ensures n.Finite? && n.value >= 1.0 ==> c == n.value
    ensures !n.Finite? || n.value < 1.0 ==> c == 1.0
  {
    if n.Finite? && n.value >= 1.0 then n.value else 1.0
  }

  /** The length of the array of workers: the smaller of the two numbers, its fraction dropped. */
  function WorkerCount(concurrency: real, scripts: nat): (w: nat)
    requires concurrency >= 1.0
    ensures w <= scripts && w as real <= concurrency
    ensures scripts > 0 ==> w > 0
    ensures w == scripts || concurrency < w as real + 1.0
  {
    if concurrency < scripts as real then concurrency.Floor else scripts
  }

  /** How the process of a script ended. */
  datatype Ended = Exit(code: int) | BySignal | NotSpawned

  /** The code recorded; an exit by signal has no code and counts as 0. */
  function CodeOf(e: Ended): int {
    match e
    case Exit(code) => code
    case BySignal => 0
    case NotSpawned => 1
  }

  datatype Result = Result(script: string, code: int)

  function ResultOf(scripts: seq<string>, ends: seq<Ended>, i: nat): Result
    requires i < |scripts| == |ends|
  {
    Result(scripts[i], CodeOf(ends[i]))
  }

  ghost predicate NoDuplicates(s: seq<nat>) {
    forall i, j :: 0 <= i < j < |s| ==> s[i] != s[j]
  }

  ghost function Upto(n: nat): (s: seq<nat>)
    ensures |s| == n
    ensures forall i :: 0 <= i < n ==> s[i] == i
  {
    seq(n, i => i)
  }

  ghost predicate Below(order: seq<nat>, n: nat) {
    forall i :: 0 <= i < |order| ==> order[i] < n
  }

  ghost function Elements(s: seq<nat>): set<nat> {
    set i | i in s
  }

  /** A list without duplicates is its set of elements. */
  lemma {:induction false} NoDuplicatesIsSet(s: seq<nat>)
    requires NoDuplicates(s)
    ensures multiset(s) == multiset(Elements(s)) && |Elements(s)| == |s|
  {
    if s != [] {
      var n := |s| - 1;
      NoDuplicatesIsSet(s[..n]);
      assert s == s[..n] + [s[n]];
      assert Elements(s) == Elements(s[..n]) + {s[n]};
    }
  }

  lemma UptoElements(n: nat)
    ensures |Elements(Upto(n))| == n && forall i: nat :: i in Elements(Upto(n)) <==> i < n
  {
    NoDuplicatesIsSet(Upto(n));
    forall i: nat | i < n ensures i in Upto(n) {
      assert Upto(n)[i] == i;
    }
  }

  lemma FullOrderIsPermutation(order: seq<nat>, n: nat)
    requires NoDuplicates(order) && forall i: nat :: i in order <==> i < n
    ensures multiset(order) == multiset(Upto(n))
  {
    NoDuplicatesIsSet(order);
    NoDuplicatesIsSet(Upto(n));
    UptoElements(n);
    assert Elements(order) == Elements(Upto(n));
  }

  /** Different numbers below `n`, one of which is left out, are fewer than `n`. */
  lemma FewerThan(order: seq<nat>, n: nat, left: nat)
    requires NoDuplicates(order) && Below(order, n) && left < n && left !in order
    ensures |order| < n
  {
    NoDuplicatesIsSet(order);
    UptoElements(n);
    assert Elements(order) + {left} <= Elements(Upto(n));
    SubsetSize(Elements(order) + {left}, Elements(Upto(n)));
  }

  ghost function ResultsOf(scripts: seq<string>, ends: seq<Ended>, order: seq<nat>): seq<Result>
    requires |scripts| == |ends| && Below(order, |scripts|)
  {
    seq(|order|, k requires 0 <= k < |order| => ResultOf(scripts, ends, order[k]))
  }

  lemma TakeOut(scripts: seq<string>, ends: seq<Ended>, s: seq<nat>, k: nat) returns (rest: seq<nat>)
    requires |scripts| == |ends| && Below(s, |scripts|) && k < |s|
    ensures && Below(rest, |scripts|) && |rest| == |s| - 1
            && multiset(s) == multiset{s[k]} + multiset(rest)
            && multiset(ResultsOf(scripts, ends, s)) ==
               multiset{ResultOf(scripts, ends, s[k])} + multiset(ResultsOf(scripts, ends, rest))
  {
    var left, right := s[..k], s[k + 1..];
    rest := left + right;
    var r := ResultOf(scripts, ends, s[k]);
    assert s == left + [s[k]] + right;
    assert ResultsOf(scripts, ends, s) == ResultsOf(scripts, ends, left) + [r] + ResultsOf(scripts, ends, right);
    assert ResultsOf(scripts, ends, left + right) == ResultsOf(scripts, ends, left) + ResultsOf(scripts, ends, right);
  }

  lemma Find(a: seq<nat>, b: seq<nat>) returns (k: nat)
    requires a != [] && multiset(a) == multiset(b)
    ensures k < |b| && b[k] == a[0]
  {
    assert a[0] in multiset(a);
    assert a[0] in b;
    k :| k < |b| && b[k] == a[0];
  }

  lemma {:induction false} PermutedResults(scripts: seq<string>, ends: seq<Ended>, a: seq<nat>, b: seq<nat>)
    requires |scripts| == |ends| && Below(a, |scripts|) && Below(b, |scripts|)
    requires multiset(a) == multiset(b)
    ensures multiset(ResultsOf(scripts, ends, a)) == multiset(ResultsOf(scripts, ends, b))
    decreases |a|
  {
    if a == [] {
      assert |multiset(b)| == |multiset(a)| == 0;
    } else {
      var k := Find(a, b);
      var restA := TakeOut(scripts, ends, a, 0);
      var restB := TakeOut(scripts, ends, b, k);
      assert multiset(restA) == multiset(a) - multiset{a[0]} == multiset(restB);
      PermutedResults(scripts, ends, restA, restB);
    }
  }

  lemma MovedFlight(flights: seq<Option<nat>>, w: nat, flight: Option<nat>, j: nat)
    requires w < |flights|
    ensures Some(j) in flights[w := flight] <==>
            flight == Some(j) || exists v :: 0 <= v < |flights| && v != w && flights[v] == Some(j)
  {
    var moved := flights[w := flight];
    assert moved[w] == flight;
    if v :| 0 <= v < |flights| && v != w && flights[v] == Some(j) {
      assert moved[v] == Some(j);
    }
  }

  class Pool {
    const scripts: seq<string>
    var cursor: nat
    var results: seq<Result>
    /** What each worker waits for; none once it has returned. */
    var flights: seq<Option<nat>>
    /** How each process is going to end, and the order in which results came in. */
    ghost const ends: seq<Ended>
    ghost var order: seq<nat>

    ghost predicate Claimed(i: nat)
      reads this
    {
      i in order || Some(i) in flights
    }

    ghost predicate Valid()
      reads this
    {
      && |ends| == |scripts|
      && NoDuplicates(order) && Below(order, |scripts|)
      && results == ResultsOf(scripts, ends, order)
      // every script before the cursor is claimed, none after it
      && (forall i: nat :: i < |scripts| ==> (Claimed(i) <==> i < cursor))
      // exactly once
      && (forall w :: 0 <= w < |flights| && flights[w].Some? ==>
        flights[w].value < |scripts| && flights[w].value !in order)
      && (forall v, w :: 0 <= v < |flights| && 0 <= w < |flights| && v != w && flights[v].Some? ==>
        flights[v] != flights[w])
      // no worker idles while scripts are left
      && (forall w :: 0 <= w < |flights| && flights[w].None? ==> cursor >= |scripts|)
    }

    /** `const i = cursor++` and the test after it: what a worker does between two waits. */
    method Claim() returns (flight: Option<nat>)
      modifies this`cursor
      ensures cursor == old(cursor) + 1
      ensures flight == if old(cursor) < |scripts| then Some(old(cursor)) else None
    {
      flight := if cursor >= |scripts| then None else Some(cursor);
      cursor := cursor + 1;
    }

    /** Starts the workers; each claims before the next one runs. */
    constructor (scripts: seq<string>, concurrency: real, ghost ends: seq<Ended>)
      requires concurrency >= 1.0 && |ends| == |scripts|
      ensures Valid() && this.scripts == scripts && this.ends == ends
      ensures |flights| == WorkerCount(concurrency, |scripts|) && order == []
    {
      this.scripts, this.ends := scripts, ends;
      cursor, results, flights, order := 0, [], [], [];
      new;
      var workers := WorkerCount(concurrency, |scripts|);
      while |flights| < workers
        invariant |flights| <= workers <= |scripts| && cursor == |flights|
        invariant order == [] && results == []
        invariant forall w :: 0 <= w < |flights| ==> flights[w] == Some(w)
      {
        var flight := Claim();
        flights := flights + [flight];
      }
      forall i: nat | i < |scripts| ensures Claimed(i) <==> i < cursor {
        if i < cursor { assert flights[i] == Some(i); }
      }
    }

    /** Worker `w`'s process ended: record the result and claim again. */
    method Complete(w: nat, ended: Ended)
      requires Valid() && w < |flights| && flights[w].Some?
      requires ended == ends[flights[w].value]
      modifies this
      ensures Valid() && order == old(order) + [old(flights[w].value)] && |flights| == |old(flights)|
    {
      var i := flights[w].value;
      ghost var before, claims := flights, cursor;
      forall j: nat | j < |scripts| ensures (j in order || Some(j) in before) <==> j < claims {
        assert Claimed(j) <==> j < cursor;
      }
      results := results + [Result(scripts[i], CodeOf(ended))];
      order := order + [i];
      assert results == ResultsOf(scripts, ends, order);
      var flight := Claim();
      flights := flights[w := flight];
      forall v | 0 <= v < |flights| && v != w && flights[v].Some?
        ensures flights[v] != flight && flights[v].value != i
      {
        assert flights[v] == before[v] && before[v] in before;
      }
      forall j: nat | j < |scripts| ensures Claimed(j) <==> j < cursor {
        MovedFlight(before, w, flight, j);
        assert before[w] == Some(i) && order[|order| - 1] == i;
      }
    }

    lemma AllDone()
      requires Valid() && (scripts != [] ==> flights != [])
      requires forall w :: 0 <= w < |flights| ==> flights[w].None?
      ensures forall i: nat :: i in order <==> i < |scripts|
    {
      if scripts != [] {
        assert flights[0].None?;
      }
      forall i: nat | i < |scripts| ensures i in order {
        assert Claimed(i);
      }
    }

    /** Waits for the workers; any process in flight may be the next to end. */
    method Run(codes: seq<Ended>)
      requires Valid() && codes == ends && order == [] && (scripts != [] ==> flights != [])
      modifies this
      ensures Valid() && multiset(order) == multiset(Upto(|scripts|))
      ensures multiset(results) == multiset(ResultsOf(scripts, ends, Upto(|scripts|)))
      ensures |flights| == |old(flights)|
    {
      while exists w :: 0 <= w < |flights| && flights[w].Some?
        invariant Valid() && |flights| == |old(flights)|
        decreases |scripts| - |order|
      {
        var w: nat :| w < |flights| && flights[w].Some?;
        FewerThan(order, |scripts|, flights[w].value);
        Complete(w, codes[flights[w].value]);
      }
      AllDone();
      FullOrderIsPermutation(order, |scripts|);
      PermutedResults(scripts, ends, order, Upto(|scripts|));
    }
  }

  /** What is recorded of each script: the code its process exited with, 0 after a signal, 1 if it was not spawned. */
  lemma ResultsAre(scripts: seq<string>, ends: seq<Ended>)
    requires |scripts| == |ends|
    ensures var results := ResultsOf(scripts, ends, Upto(|scripts|));
            && |results| == |scripts|
            && forall i :: 0 <= i < |scripts| ==>
                 && results[i].script == scripts[i]
                 && (ends[i].Exit? ==> results[i].code == ends[i].code)
                 && (ends[i].BySignal? ==> results[i].code == 0)
                 && (ends[i].NotSpawned? ==> results[i].code == 1)
  {
  }

  lemma AllZeroIff(scripts: seq<string>, ends: seq<Ended>, results: seq<Result>)
    requires |scripts| == |ends|
    requires multiset(results) == multiset(ResultsOf(scripts, ends, Upto(|scripts|)))
    ensures (forall k :: 0 <= k < |results| ==> results[k].code == 0) <==>
            (forall i :: 0 <= i < |ends| ==> CodeOf(ends[i]) == 0)
  {
    var all := ResultsOf(scripts, ends, Upto(|scripts|));
    forall r ensures r in results <==> r in all {
      assert r in results <==> r in multiset(results);
      assert r in all <==> r in multiset(all);
    }
    forall i | 0 <= i < |ends| ensures all[i].code == CodeOf(ends[i]) && all[i] in results {
      assert all[i] in all;
    }
    forall k | 0 <= k < |results| ensures exists i :: 0 <= i < |ends| && results[k].code == CodeOf(ends[i]) {
      assert results[k] in all;
      var i :| 0 <= i < |all| && all[i] == results[k];
    }
  }

  /**
   The whole script. Under every completion order each audit is run and recorded
   exactly once, by no more workers than asked for, and the exit code is 0 exactly
   when every process exited 0 or was ended by a signal.
   */
  method RunAudits(scripts: seq<string>, asked: Number, ends: seq<Ended>) returns (code: int, results: seq<Result>)
    requires |ends| == |scripts|
    ensures scripts == [] ==> code == 2
    ensures multiset(results) == multiset(ResultsOf(scripts, ends, Upto(|scripts|)))
    ensures scripts != [] ==> (code == 0 <==> forall i :: 0 <= i < |ends| ==> ends[i] == Exit(0) || ends[i] == BySignal)
    ensures scripts != [] ==> code == 0 || code == 1
  {
    if scripts == [] { return 2, []; }
    var pool := new Pool(scripts, Concurrency(asked), ends);
    pool.Run(ends);
    results := pool.results;
    code := if exists k :: 0 <= k < |results| && results[k].code != 0 then 1 else 0;
    AllZeroIff(scripts, ends, results);
  }
}
