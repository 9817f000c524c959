/** Which of the sixteen default subnets a new network gets. */
module CidrAllocator {
  import opened Basics

  const OPTIONS: seq<string> := [
    "10.121.15.0/24", "10.121.16.0/24", "10.121.17.0/24", "10.121.18.0/24", "10.121.19.0/24", "10.121.20.0/24",
    "10.121.21.0/24", "10.121.22.0/24", "10.121.23.0/24", "10.121.24.0/24", "172.25.25.0/24", "172.25.26.0/24",
    "172.25.27.0/24", "172.25.28.0/24", "172.25.29.0/24", "172.25.30.0/24"]

  predicate Distinct(options: seq<string>) {
    forall i, j | 0 <= i < j < |options| :: options[i] != options[j]
  }

  lemma OptionsDistinct()
    ensures |OPTIONS| == 16 && Distinct(OPTIONS)
  {
    forall i, j | 0 <= i < j < 16 ensures OPTIONS[i] != OPTIONS[j] {
      TailsDiffer(i, j);
    }
  }

  /** The third octet, and before it the first, tell the options apart. */
  lemma TailsDiffer(i: nat, j: nat)
    requires i < j < 16
    ensures OPTIONS[i] != OPTIONS[j]
  {
    if i < 10 && j >= 10 {
      assert OPTIONS[i][1] == '0' && OPTIONS[j][1] == '7';
    } else {
      assert OPTIONS[i][7] != OPTIONS[j][7] || OPTIONS[i][8] != OPTIONS[j][8];
    }
  }

  function Count(used: seq<string>, cidr: string): nat {
    multiset(used)[cidr]
  }

  function Flat(used: seq<seq<string>>): seq<string> {
    if used == [] then [] else used[0] + Flat(used[1..])
  }

  /** `options[k]` is the first option of least use. */
  predicate IsFirstLeast(k: int, options: seq<string>, used: seq<string>) {
    && 0 <= k < |options|
    && (forall i | 0 <= i < |options| :: Count(used, options[k]) <= Count(used, options[i]))
    && (forall i | 0 <= i < k :: Count(used, options[k]) < Count(used, options[i]))
  }

  lemma FirstLeastUnique(j: int, k: int, options: seq<string>, used: seq<string>)
    requires IsFirstLeast(j, options, used) && IsFirstLeast(k, options, used)
    ensures j == k
  {
    hide Count;
    var x, y := options[j], options[k];
    assert Count(used, x) == Count(used, y);
  }

  /** The loop that counts how often each subnet is used. */
  method Frequencies(used: seq<string>) returns (frequency: map<string, nat>)
    ensures forall c :: (if c in frequency then frequency[c] else 0) == Count(used, c)
  {
    frequency := map[];
    var i := 0;
    while i < |used|
      invariant i <= |used|
      invariant forall c :: (if c in frequency then frequency[c] else 0) == Count(used[..i], c)
    {
      var c := used[i];
      assert used[..i + 1] == used[..i] + [c];
      frequency := frequency[c := if c in frequency then frequency[c] + 1 else 1];
      i := i + 1;
    }
    assert used[..i] == used;
  }

  /** The first option that is not used at all. */
  method FirstUnused(options: seq<string>, used: seq<string>) returns (k: nat)
    ensures k <= |options| && (k < |options| ==> options[k] !in used) && forall i | 0 <= i < k :: options[i] in used
  {
    k := 0;
    while k < |options| && options[k] in used
      invariant k <= |options| && forall i | 0 <= i < k :: options[i] in used
    {
      k := k + 1;
    }
  }

  ghost predicate Picks(cidr: string, options: seq<string>, used: seq<string>) {
    exists k :: IsFirstLeast(k, options, used) && cidr == options[k]
  }

  /**
   * `generateCidr`: a random option on request, with the draw as a parameter, and otherwise the first option of least
   * use, whichever branch finds it.
   */
  method GenerateCidr(options: seq<string>, usedLists: seq<seq<string>>, random: Option<nat>) returns (cidr: string)
    requires |options| > 0 && (random.Some? ==> random.value < |options|)
    ensures random.None? ==> Picks(cidr, options, Flat(usedLists))
    ensures random.Some? ==> cidr == options[random.value]
  {
    if random.Some? {
      return options[random.value];
    }
    var used := Flat(usedLists);
    var frequency := Frequencies(used);
    var unused := FirstUnused(options, used);
    if unused < |options| {
      assert IsFirstLeast(unused, options, used);
      return options[unused];
    }
    var least, minCount: int := 0, -1; // -1 stands for infinity
    var i := 0;
    while i < |options|
      invariant i <= |options| && 0 <= least < |options| && (i == 0 ==> minCount == -1 && least == 0)
      invariant i > 0 ==> least < i && minCount == Count(used, options[least])
      invariant i > 0 ==> forall j | 0 <= j < i :: Count(used, options[least]) <= Count(used, options[j])
      invariant i > 0 ==> forall j | 0 <= j < least :: Count(used, options[least]) < Count(used, options[j])
    {
      var count := if options[i] in frequency then frequency[options[i]] else 0;
      if minCount == -1 || count < minCount {
        minCount, least := count, i;
      }
      i := i + 1;
    }
    assert IsFirstLeast(least, options, used);
    return options[least];
  }

  // ---------------------------------------------------------------------
  // Repeated allocation
  // ---------------------------------------------------------------------

  /** Every element was allocated when the ones before it were in use. */
  ghost predicate Allocated(used: seq<string>, options: seq<string>)
    decreases |used|
  {
    used == [] || (Allocated(used[..|used| - 1], options) && Picks(used[|used| - 1], options, used[..|used| - 1]))
  }

  /** How often option `i` comes up in the first `n` places of a rotation. */
  function Turns(n: nat, i: nat, m: nat): nat
    requires i < m
  {
    n / m + (if i < n % m then 1 else 0)
  }

  lemma TurnsNext(n: nat, i: nat, m: nat)
    requires i < m
    ensures Turns(n + 1, i, m) == Turns(n, i, m) + (if i == n % m then 1 else 0)
  {
    NextQuotient(n, m);
  }

  lemma NextQuotient(n: nat, m: nat)
    requires m > 0
    ensures
      if n % m == m - 1 then (n + 1) / m == n / m + 1 && (n + 1) % m == 0
      else (n + 1) / m == n / m && (n + 1) % m == n % m + 1
  {
    var q, r := n / m, n % m;
    assert n == q * m + r;
    if r == m - 1 {
      assert n + 1 == (q + 1) * m;
      Quotient(n + 1, m, q + 1, 0);
    } else {
      Quotient(n + 1, m, q, r + 1);
    }
  }

  lemma Quotient(n: int, m: int, q: int, r: int)
    requires m > 0 && 0 <= r < m && n == q * m + r
    ensures n / m == q && n % m == r
  {
    SameBlock(n, q, m);
  }

  ghost predicate Rotated(used: seq<string>, options: seq<string>)
    requires |options| > 0
  {
    && (forall n | 0 <= n < |used| :: used[n] == options[n % |options|])
    && (forall i | 0 <= i < |options| :: Count(used, options[i]) == Turns(|used|, i, |options|))
  }

  /** In a rotation the next turn goes to the first option of least use. */
  lemma NextTurn(used: seq<string>, options: seq<string>)
    requires |options| > 0 && Rotated(used, options)
    ensures IsFirstLeast(|used| % |options|, options, used)
  {
    hide Count;
    var k := |used| % |options|;
    forall i | 0 <= i < |options|
      ensures Count(used, options[k]) <= Count(used, options[i])
      ensures i < k ==> Count(used, options[k]) < Count(used, options[i])
    {
      assert Count(used, options[i]) == Turns(|used|, i, |options|);
      assert Count(used, options[k]) == Turns(|used|, k, |options|);
    }
  }

  lemma OneMore(used: seq<string>, options: seq<string>, next: string)
    requires |options| > 0 && Distinct(options) && Rotated(used, options) && next == options[|used| % |options|]
    ensures Rotated(used + [next], options)
  {
    hide Turns;
    var m := |options|;
    forall i | 0 <= i < m ensures Count(used + [next], options[i]) == Turns(|used| + 1, i, m) {
      TurnsNext(|used|, i, m);
      var k := |used| % m;
      assert i != k ==> options[i] != options[k];
    }
  }

  /** The n-th allocation is option n modulo the number of options. */
  lemma {:induction false} AllocationRotates(used: seq<string>, options: seq<string>)
    requires |options| > 0 && Distinct(options) && Allocated(used, options)
    ensures Rotated(used, options)
    decreases |used|
  {
    hide Picks, Rotated;
    if used == [] {
      NoTurns(options);
    } else {
      var before, next := used[..|used| - 1], used[|used| - 1];
      AllocationRotates(before, options);
      PickIsTurn(before, options, next);
      OneMore(before, options, next);
      assert used == before + [next];
    }
  }

  lemma PickIsTurn(used: seq<string>, options: seq<string>, next: string)
    requires |options| > 0 && Rotated(used, options) && Picks(next, options, used)
    ensures next == options[|used| % |options|]
  {
    hide Rotated, Count;
    var k :| IsFirstLeast(k, options, used) && next == options[k];
    NextTurn(used, options);
    FirstLeastUnique(k, |used| % |options|, options, used);
  }

  lemma NoTurns(options: seq<string>)
    requires |options| > 0
    ensures Rotated([], options)
  {
    forall i | 0 <= i < |options| ensures Turns(0, i, |options|) == 0 {
      Quotient(0, |options|, 0, 0);
    }
  }

  /** No subnet is ever used more than once oftener than another. */
  lemma AllocationFair(used: seq<string>, options: seq<string>, i: nat, j: nat)
    requires |options| > 0 && Distinct(options) && Allocated(used, options) && i < |options| && j < |options|
    ensures Count(used, options[i]) <= Count(used, options[j]) + 1
  {
    hide Count;
    AllocationRotates(used, options);
    assert Count(used, options[i]) == Turns(|used|, i, |options|);
    assert Count(used, options[j]) == Turns(|used|, j, |options|);
  }

  /** For the sixteen subnets of the program. */
  lemma DefaultAllocation(used: seq<string>, n: nat)
    requires Allocated(used, OPTIONS) && n < |used|
    ensures used[n] == OPTIONS[n % 16]
  {
    hide OPTIONS;
    OptionsDistinct();
    AllocationRotates(used, OPTIONS);
  }
}
