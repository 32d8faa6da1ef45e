/** Fixed-capacity slot pools. A request claims the first inactive slot and is
    silently dropped when every slot is active; a frame ages every active slot. */
module Pools {
  import opened GameTypes

  /** Index of the first inactive slot, or `|flags|` when the pool is full. */
  function FirstFree(flags: seq<bool>): (k: nat)
    ensures k <= |flags|
    ensures forall j :: 0 <= j < k ==> flags[j]
    ensures k < |flags| ==> !flags[k]
  {
    if flags == [] || !flags[0] then 0 else 1 + FirstFree(flags[1..])
  }

  /** Number of active slots. */
  function ActiveCount(flags: seq<bool>): (n: nat)
    ensures n <= |flags|
  {
    if flags == [] then 0 else (if flags[0] then 1 else 0) + ActiveCount(flags[1..])
  }

  /** A slot that is inactive and preceded only by active slots is the one claimed. */
  lemma {:induction false} FirstFreeIs(flags: seq<bool>, k: nat)
    requires k <= |flags|
    requires forall j :: 0 <= j < k ==> flags[j]
    requires k < |flags| ==> !flags[k]
    ensures FirstFree(flags) == k
  {
    if k > 0 {
      FirstFreeIs(flags[1..], k - 1);
    }
  }

  /** The pool is full exactly when every slot is active. */
  lemma {:induction false} FullIffAllActive(flags: seq<bool>)
    ensures FirstFree(flags) == |flags| <==> ActiveCount(flags) == |flags|
  {
    if flags != [] {
      FullIffAllActive(flags[1..]);
    }
  }

  /** Overwriting one slot changes the count by that slot's change only. */
  lemma {:induction false} ActiveCountUpdate(flags: seq<bool>, k: nat, v: bool)
    requires k < |flags|
    ensures ActiveCount(flags[k := v])
         == ActiveCount(flags) - (if flags[k] then 1 else 0) + (if v then 1 else 0)
  {
    if k == 0 {
      assert flags[k := v][1..] == flags[1..];
    } else {
      ActiveCountUpdate(flags[1..], k - 1, v);
      assert flags[k := v][1..] == flags[1..][k - 1 := v];
    }
  }

  /** A pool in which no slot became active has no more active slots than before. */
  lemma {:induction false} ActiveCountMonotone(before: seq<bool>, after: seq<bool>)
    requires |before| == |after|
    requires forall j :: 0 <= j < |after| ==> after[j] ==> before[j]
    ensures ActiveCount(after) <= ActiveCount(before)
  {
    if after != [] {
      ActiveCountMonotone(before[1..], after[1..]);
    }
  }

  /** The in-use flags of a pool. */
  function Flags<T>(s: seq<Slot<T>>): (f: seq<bool>)
    ensures |f| == |s|
    ensures forall j :: 0 <= j < |s| ==> f[j] == s[j].active
  {
    seq(|s|, j requires 0 <= j < |s| => s[j].active)
  }

  /** Number of slots in use. */
  function InUse<T>(s: seq<Slot<T>>): nat { ActiveCount(Flags(s)) }

  /** The pool after a request to place `x`: the first free slot takes it. */
  function Claim<T>(s: seq<Slot<T>>, x: Slot<T>): (r: seq<Slot<T>>)
    ensures |r| == |s|
  {
    var k := FirstFree(Flags(s));
    if k < |s| then s[k := x] else s
  }

  /** A request fills the lowest-index inactive slot and puts exactly one more
      slot in use; on a full pool it changes nothing (the request is dropped). */
  lemma ClaimTakesLowestFree<T>(s: seq<Slot<T>>, x: Slot<T>)
    requires x.active
    ensures |Claim(s, x)| == |s|
    ensures InUse(s) == |s| ==> Claim(s, x) == s
    ensures InUse(s) < |s| ==>
      exists k :: 0 <= k < |s| && !s[k].active && (forall j :: 0 <= j < k ==> s[j].active)
                  && Claim(s, x) == s[k := x]
    ensures InUse(Claim(s, x)) == if InUse(s) < |s| then InUse(s) + 1 else InUse(s)
  {
    var f := Flags(s);
    var k := FirstFree(f);
    FullIffAllActive(f);
    if k < |s| {
      assert Flags(s[k := x]) == f[k := true];
      ActiveCountUpdate(f, k, true);
    }
  }

  /** One frame of a slot's lifetime: an item in use loses `dt` and is released
      once its life is used up; a free slot is untouched. */
  function AgeSlot<T>(x: Slot<T>, dt: real): (r: Slot<T>)
    ensures !x.active ==> r == x
    ensures x.active ==> r.life == x.life - dt && r.kind == x.kind && (r.active <==> r.life > 0.0)
  {
    if x.active then
      var life := x.life - dt;
      x.(life := life, active := life > 0.0)
    else x
  }

  function Age<T>(s: seq<Slot<T>>, dt: real): (r: seq<Slot<T>>)
    ensures |r| == |s|
  {
    seq(|s|, j requires 0 <= j < |s| => AgeSlot(s[j], dt))
  }

  /** Ageing a pool: an item in use stays in use exactly while life remains,
      free slots are untouched, and no slot comes into use, so the number in use
      never grows. */
  lemma AgeNeverGrows<T>(s: seq<Slot<T>>, dt: real)
    ensures forall j :: 0 <= j < |s| && !s[j].active ==> Age(s, dt)[j] == s[j]
    ensures forall j :: 0 <= j < |s| && s[j].active ==>
      Age(s, dt)[j].life == s[j].life - dt && Age(s, dt)[j].kind == s[j].kind &&
      (Age(s, dt)[j].active <==> s[j].life - dt > 0.0)
    ensures InUse(Age(s, dt)) <= InUse(s)
  {
    ActiveCountMonotone(Flags(s), Flags(Age(s, dt)));
  }
}
