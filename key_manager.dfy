/** The provider key manager: a fixed list of API-key records with a health
    state each and a round-robin pointer. `pickKey` hands out the next key
    that is not cooling down, `reportSuccess` and `reportError` update the
    health of a key after a provider call, and `listKeyStates` shows the
    records with the keys masked. The clock reading `Date.now()` is the
    parameter `now`. */
module KeyManager {
  import opened Wrappers
  import Text

  /** How long a quarantined key is skipped, in milliseconds. */
  const COOLDOWN_MS: int := 5 * 60 * 1000

  /** Consecutive failures that quarantine a key even when none is severe. */
  const ERROR_THRESHOLD: nat := 3

  /** One record of `keyStates`; `cooldownUntil` and `lastUsed` may be
      undefined. `tokensUsedLastMinute` is never updated by the source. */
  datatype KeyState = KeyState(
    key: string,
    index: nat,
    healthy: bool,
    cooldownUntil: Option<int>,
    consecutiveErrors: nat,
    lastUsed: Option<int>,
    tokensUsedLastMinute: nat)

  /** The records built from the configured key list at start-up. */
  function Initial(keys: seq<string>): (r: seq<KeyState>)
    ensures |r| == |keys| && Inv(r)
    ensures forall i :: 0 <= i < |r| ==>
      r[i].key == keys[i] && r[i].healthy && r[i].cooldownUntil == None && r[i].consecutiveErrors == 0
  {
    seq(|keys|, i requires 0 <= i < |keys| => KeyState(keys[i], i, true, None, 0, None, 0))
  }

  /** The invariant every operation keeps: each record knows its position,
      and a key that is not healthy has a cooldown deadline. */
  ghost predicate Inv(s: seq<KeyState>) {
    forall i :: 0 <= i < |s| ==> s[i].index == i && (!s[i].healthy ==> s[i].cooldownUntil.Some?)
  }

  /** `ks.cooldownUntil` as a JavaScript condition: undefined and 0 are false. */
  predicate HasCooldown(ks: KeyState) {
    ks.cooldownUntil.Some? && ks.cooldownUntil.value != 0
  }

  /** The keys `pickKey` passes over. */
  predicate CoolingDown(ks: KeyState, now: int) {
    !ks.healthy && HasCooldown(ks) && ks.cooldownUntil.value > now
  }

  /** The keys `pickKey` rehabilitates when it hands them out. */
  predicate CooldownOver(ks: KeyState, now: int) {
    !ks.healthy && HasCooldown(ks) && ks.cooldownUntil.value <= now
  }

  /** What `pickKey` does to the record it returns. */
  function Take(ks: KeyState, now: int): KeyState {
    var ks' := if CooldownOver(ks, now)
               then ks.(healthy := true, consecutiveErrors := 0, cooldownUntil := None)
               else ks;
    ks'.(lastUsed := Some(now))
  }

  /** The position the scan looks at `i` steps after the pointer. */
  function Slot(ptr: nat, i: nat, n: nat): nat
    requires n > 0
  {
    (ptr + i) % n
  }

  /** The record the scan looks at `i` steps after the pointer. */
  function At(s: seq<KeyState>, ptr: nat, i: nat): KeyState
    requires |s| > 0
  {
    s[Slot(ptr, i, |s|)]
  }

  /** The number of steps after the pointer at which the scan stops, looking
      from step `i` on; None when every remaining step meets a key that is
      cooling down. */
  function ScanFrom(s: seq<KeyState>, ptr: nat, now: int, i: nat): (r: Option<nat>)
    requires |s| > 0
    ensures r.Some? ==> i <= r.value < |s| && !CoolingDown(At(s, ptr, r.value), now)
    ensures r.Some? ==> forall j :: i <= j < r.value ==> CoolingDown(At(s, ptr, j), now)
    ensures r.None? ==> forall j :: i <= j < |s| ==> CoolingDown(At(s, ptr, j), now)
    decreases |s| - i
  {
    if i >= |s| then None
    else if CoolingDown(At(s, ptr, i), now) then ScanFrom(s, ptr, now, i + 1)
    else Some(i)
  }

  /** The outcome of one `pickKey`: the returned position, the records and
      the pointer afterwards. */
  datatype Picked = Picked(index: Option<nat>, states: seq<KeyState>, rrPointer: nat)

  /** `pickKey` on the records `s` with pointer `ptr`. */
  function Pick(s: seq<KeyState>, ptr: nat, now: int): (p: Picked)
    ensures |p.states| == |s|
    ensures p.index.None? ==> p.states == s && p.rrPointer == ptr
    ensures p.index.Some? ==> p.index.value < |s| && p.rrPointer == p.index.value + 1
    ensures p.index.Some? ==> p.states == s[p.index.value := Take(s[p.index.value], now)]
  {
    if |s| == 0 then Picked(None, s, ptr)
    else match ScanFrom(s, ptr, now, 0)
      case None => Picked(None, s, ptr)
      case Some(off) =>
        var idx := Slot(ptr, off, |s|);
        Picked(Some(idx), s[idx := Take(s[idx], now)], idx + 1)
  }

  /** `keyStates.find(k => k.key === key)`: the first record with that key. */
  function Find(s: seq<KeyState>, key: string): (r: Option<nat>)
    ensures r.Some? ==> r.value < |s| && s[r.value].key == key
    ensures r.Some? ==> forall j :: 0 <= j < r.value ==> s[j].key != key
    ensures r.None? ==> forall j :: 0 <= j < |s| ==> s[j].key != key
    decreases |s|
  {
    if |s| == 0 then None
    else if s[0].key == key then Some(0)
    else match Find(s[1..], key)
      case None => None
      case Some(j) => Some(j + 1)
  }

  /** `reportSuccess` on the records `s`. */
  function SuccessStep(s: seq<KeyState>, key: string): (t: seq<KeyState>)
    ensures |t| == |s|
    ensures forall j :: 0 <= j < |s| && Find(s, key) != Some(j) ==> t[j] == s[j]
    ensures Find(s, key).Some? ==> var i := Find(s, key).value;
      t[i] == s[i].(consecutiveErrors := 0, healthy := true)
  {
    match Find(s, key)
    case None => s
    case Some(i) => s[i := s[i].(consecutiveErrors := 0, healthy := true)]
  }

  /** `reportError` on the records `s`: count the failure, and quarantine the
      key when the failure is severe or the count has reached the threshold. */
  function ErrorStep(s: seq<KeyState>, key: string, severe: bool, now: int): (t: seq<KeyState>)
    ensures |t| == |s|
    ensures forall j :: 0 <= j < |s| && Find(s, key) != Some(j) ==> t[j] == s[j]
  {
    match Find(s, key)
    case None => s
    case Some(i) =>
      var ks := s[i].(consecutiveErrors := s[i].consecutiveErrors + 1);
      if severe || ks.consecutiveErrors >= ERROR_THRESHOLD
      then s[i := ks.(healthy := false, cooldownUntil := Some(now + COOLDOWN_MS))]
      else s[i := ks]
  }

  // ---------------------------------------------------------- masked view

  /** `mask`: short keys are hidden entirely, longer ones show only their
      first and last four characters. */
  function Mask(key: string): (r: string)
    ensures |key| <= 8 ==> r == "****"
    ensures |key| > 8 ==> |r| == 11 && r[..4] == key[..4] && r[4..7] == "..." && r[7..] == key[|key| - 4..]
  {
    if |key| <= 8 then "****" else key[..4] + "..." + key[|key| - 4..]
  }

  /** One entry of `listKeyStates`. */
  datatype KeyView = KeyView(key: string, healthy: bool, cooldownUntil: Option<int>, consecutiveErrors: nat)

  /** `listKeyStates` on the records `s`. */
  function Views(s: seq<KeyState>): (r: seq<KeyView>)
    ensures |r| == |s|
    ensures forall i :: 0 <= i < |s| ==> r[i] == KeyView(Mask(s[i].key), s[i].healthy, s[i].cooldownUntil, s[i].consecutiveErrors)
  {
    seq(|s|, i requires 0 <= i < |s| => KeyView(Mask(s[i].key), s[i].healthy, s[i].cooldownUntil, s[i].consecutiveErrors))
  }

  // ------------------------------------------------------------ the object

  /** The module state of the source: the `keyStates` array and `rrPointer`. */
  class Manager {
    var states: array<KeyState>
    var rrPointer: nat

    ghost predicate Valid()
      reads this, states
    {
      Inv(states[..]) && rrPointer <= states.Length
    }

    /** Start-up: one healthy record per configured key; the configuration
        trims the keys and drops empty ones. */
    constructor (keys: seq<string>)
      requires forall i :: 0 <= i < |keys| ==> keys[i] != "" && Text.Trim(keys[i]) == keys[i]
      ensures Valid() && fresh(states)
      ensures states[..] == Initial(keys) && rrPointer == 0
    {
      states := new KeyState[|keys|](i requires 0 <= i < |keys| => KeyState(keys[i], i, true, None, 0, None, 0));
      rrPointer := 0;
    }

    /** `pickKey`: scan at most once round from the pointer, skip keys still
        cooling down, rehabilitate the returned key if its cooldown is over,
        stamp it as used and move the pointer just past it. */
    method PickKey(now: int) returns (r: Option<KeyState>)
      requires Valid()
      modifies this, states
      ensures Valid() && states == old(states)
      ensures var p := Pick(old(states[..]), old(rrPointer), now);
        states[..] == p.states && rrPointer == p.rrPointer
        && r == (if p.index.Some? then Some(p.states[p.index.value]) else None)
    {
      var n := states.Length;
      ghost var s := states[..];
      var i := 0;
      while i < n
        invariant 0 <= i <= n
        invariant states[..] == s && rrPointer == old(rrPointer)
        invariant n > 0 ==> ScanFrom(s, rrPointer, now, 0) == ScanFrom(s, rrPointer, now, i)
      {
        var idx := (rrPointer + i) % n;
        var ks := states[idx];
        if !ks.healthy && HasCooldown(ks) && ks.cooldownUntil.value > now {
          i := i + 1;
          continue;
        }
        if !ks.healthy && HasCooldown(ks) && ks.cooldownUntil.value <= now {
          ks := ks.(healthy := true, consecutiveErrors := 0, cooldownUntil := None);
        }
        rrPointer := idx + 1;
        ks := ks.(lastUsed := Some(now));
        states[idx] := ks;
        InvariantKept(s, old(rrPointer), now);
        return Some(ks);
      }
      return None;
    }

    /** `reportSuccess`: clear the failure count of the first record with
        this key and mark it healthy; unknown keys are ignored. */
    method ReportSuccess(key: string)
      requires Valid()
      modifies states
      ensures Valid()
      ensures states[..] == SuccessStep(old(states[..]), key)
    {
      var found := Find(states[..], key);
      if found.Some? {
        var i := found.value;
        states[i] := states[i].(consecutiveErrors := 0, healthy := true);
      }
      InvariantKeptBySuccess(old(states[..]), key);
    }

    /** `reportError`: count the failure of the first record with this key;
        a severe failure or the third in a row quarantines the key until
        `now + COOLDOWN_MS`; unknown keys are ignored. */
    method ReportError(key: string, severe: bool, now: int)
      requires Valid()
      modifies states
      ensures Valid()
      ensures states[..] == ErrorStep(old(states[..]), key, severe, now)
    {
      var found := Find(states[..], key);
      if found.None? {
        return;
      }
      var i := found.value;
      states[i] := states[i].(consecutiveErrors := states[i].consecutiveErrors + 1);
      if severe || states[i].consecutiveErrors >= ERROR_THRESHOLD {
        states[i] := states[i].(healthy := false, cooldownUntil := Some(now + COOLDOWN_MS));
      }
      InvariantKeptByError(old(states[..]), key, severe, now);
    }

    /** `listKeyStates`: the records in order, keys masked. */
    function ListKeyStates(): (r: seq<KeyView>)
      reads this, states
      ensures r == Views(states[..])
    {
      Views(states[..])
    }
  }

  // ------------------------------------------------------------ invariant

  /** `pickKey` keeps the invariant and the pointer within 0..N. */
  lemma InvariantKept(s: seq<KeyState>, ptr: nat, now: int)
    requires Inv(s) && ptr <= |s|
    ensures Inv(Pick(s, ptr, now).states) && Pick(s, ptr, now).rrPointer <= |s|
  {
  }

  /** `reportSuccess` keeps the invariant, and leaves a stale cooldown deadline
      in place on the key it marks healthy. */
  lemma InvariantKeptBySuccess(s: seq<KeyState>, key: string)
    requires Inv(s)
    ensures Inv(SuccessStep(s, key))
    ensures forall j :: 0 <= j < |s| ==> SuccessStep(s, key)[j].cooldownUntil == s[j].cooldownUntil
  {
  }

  /** `reportError` keeps the invariant. */
  lemma InvariantKeptByError(s: seq<KeyState>, key: string, severe: bool, now: int)
    requires Inv(s)
    ensures Inv(ErrorStep(s, key, severe, now))
  {
  }

  // ---------------------------------------------------------- arithmetic

  lemma ModBelowTwice(x: int, n: int)
    requires 0 < n && 0 <= x < 2 * n
    ensures x % n == if x < n then x else x - n
  {
  }

  /** Every position is met by the scan within one round. */
  lemma Reach(n: nat, ptr: nat, i: nat) returns (j: nat)
    requires i < n && ptr <= n
    ensures j < n && (ptr + j) % n == i
  {
    if ptr == n {
      j := i;
    } else if i >= ptr {
      j := i - ptr;
    } else {
      j := i + n - ptr;
    }
    ModBelowTwice(ptr + j, n);
  }

  // ------------------------------------------------------------ selection

  /** `pickKey` returns null exactly when every key is cooling down (in
      particular when there are no keys). */
  lemma PickNoneIff(s: seq<KeyState>, ptr: nat, now: int)
    requires ptr <= |s|
    ensures Pick(s, ptr, now).index.None? <==> forall i :: 0 <= i < |s| ==> CoolingDown(s[i], now)
  {
    if |s| > 0 {
      if ScanFrom(s, ptr, now, 0).None? {
        forall i | 0 <= i < |s| ensures CoolingDown(s[i], now) {
          var j := Reach(|s|, ptr, i);
          assert Slot(ptr, j, |s|) == i;
          assert At(s, ptr, j) == s[i];
        }
      } else {
        var off := ScanFrom(s, ptr, now, 0).value;
        assert !CoolingDown(s[Slot(ptr, off, |s|)], now);
      }
    }
  }

  /** `pickKey` returns the first key, counting cyclically from the pointer,
      that is not cooling down: every key it passed over is cooling down. */
  lemma PickFirstEligible(s: seq<KeyState>, ptr: nat, now: int)
    requires Pick(s, ptr, now).index.Some?
    ensures var idx := Pick(s, ptr, now).index.value;
      exists off :: 0 <= off < |s| && idx == Slot(ptr, off, |s|)
        && !CoolingDown(s[idx], now)
        && forall j :: 0 <= j < off ==> CoolingDown(At(s, ptr, j), now)
  {
    var off := ScanFrom(s, ptr, now, 0).value;
    assert Pick(s, ptr, now).index.value == Slot(ptr, off, |s|);
  }

  /** Rehabilitation touches only the returned key, and only when its
      cooldown is over: it becomes healthy with no failures and no deadline. */
  lemma PickRehabilitatesOnlyReturned(s: seq<KeyState>, ptr: nat, now: int)
    requires Pick(s, ptr, now).index.Some?
    ensures var p := Pick(s, ptr, now); var idx := p.index.value;
      (forall j :: 0 <= j < |s| && j != idx ==> p.states[j] == s[j])
      && p.states[idx].lastUsed == Some(now)
      && (CooldownOver(s[idx], now) ==> p.states[idx].healthy && p.states[idx].consecutiveErrors == 0 && p.states[idx].cooldownUntil == None)
      && (!CooldownOver(s[idx], now) ==> p.states[idx] == s[idx].(lastUsed := Some(now)))
  {
  }

  /** The positions returned by `count` calls of `pickKey` at the same instant. */
  function Picks(s: seq<KeyState>, ptr: nat, now: int, count: nat): seq<Option<nat>>
    decreases count
  {
    if count == 0 then []
    else
      var p := Pick(s, ptr, now);
      [p.index] + Picks(p.states, p.rrPointer, now, count - 1)
  }

  /** With no key cooling down, `pickKey` returns the key at the pointer, and
      still no key is cooling down afterwards. */
  lemma PickWhenAllEligible(s: seq<KeyState>, ptr: nat, now: int)
    requires |s| > 0
    requires forall i :: 0 <= i < |s| ==> !CoolingDown(s[i], now)
    ensures Pick(s, ptr, now).index == Some(Slot(ptr, 0, |s|))
    ensures forall i :: 0 <= i < |s| ==> !CoolingDown(Pick(s, ptr, now).states[i], now)
  {
    assert !CoolingDown(At(s, ptr, 0), now);
    assert ScanFrom(s, ptr, now, 0) == Some(0);
  }

  /** Moving the pointer just past the slot at step 0 is moving one step. */
  lemma NextSlot(ptr: nat, j: nat, n: nat)
    requires ptr <= n && j + 1 < n
    ensures Slot(Slot(ptr, 0, n) + 1, j, n) == Slot(ptr, j + 1, n)
  {
    ModBelowTwice(ptr, n);
    ModBelowTwice(ptr + j + 1, n);
    ModBelowTwice(Slot(ptr, 0, n) + 1 + j, n);
  }

  /** Round-robin fairness: when no key is cooling down, consecutive calls
      return consecutive positions, cyclically, starting at the pointer. */
  lemma {:induction false} RoundRobin(s: seq<KeyState>, ptr: nat, now: int, count: nat)
    requires |s| > 0 && ptr <= |s| && count <= |s|
    requires forall i :: 0 <= i < |s| ==> !CoolingDown(s[i], now)
    ensures |Picks(s, ptr, now, count)| == count
    ensures forall j :: 0 <= j < count ==> Picks(s, ptr, now, count)[j] == Some(Slot(ptr, j, |s|))
    decreases count
  {
    if count > 0 {
      var n := |s|;
      var p := Pick(s, ptr, now);
      PickWhenAllEligible(s, ptr, now);
      ModBelowTwice(ptr, n);
      RoundRobin(p.states, p.rrPointer, now, count - 1);
      var rest := Picks(p.states, p.rrPointer, now, count - 1);
      assert Picks(s, ptr, now, count) == [p.index] + rest;
      forall j | 0 < j < count ensures rest[j - 1] == Some(Slot(ptr, j, n)) {
        NextSlot(ptr, j - 1, n);
      }
    }
  }

  /** Different steps within one round reach different positions. */
  lemma SlotsDistinct(ptr: nat, a: nat, b: nat, n: nat)
    requires ptr <= n && a < b < n
    ensures Slot(ptr, a, n) != Slot(ptr, b, n)
  {
    ModBelowTwice(ptr + a, n);
    ModBelowTwice(ptr + b, n);
  }

  /** N calls over N eligible keys hand out N different keys. */
  lemma RoundRobinDistinct(s: seq<KeyState>, ptr: nat, now: int)
    requires |s| > 0 && ptr <= |s|
    requires forall i :: 0 <= i < |s| ==> !CoolingDown(s[i], now)
    ensures var ps := Picks(s, ptr, now, |s|);
      |ps| == |s| && (forall a :: 0 <= a < |s| ==> ps[a].Some?)
      && forall a, b :: 0 <= a < b < |s| ==> ps[a] != ps[b]
  {
    var n := |s|;
    RoundRobin(s, ptr, now, n);
    var ps := Picks(s, ptr, now, n);
    forall a, b | 0 <= a < b < n ensures ps[a] != ps[b] {
      SlotsDistinct(ptr, a, b, n);
    }
  }

  // ------------------------------------------------------ health reports

  /** The updates never change which record carries which key. */
  lemma {:induction false} FindStable(s: seq<KeyState>, t: seq<KeyState>, key: string)
    requires |s| == |t| && forall j :: 0 <= j < |s| ==> s[j].key == t[j].key
    ensures Find(t, key) == Find(s, key)
    decreases |s|
  {
    if |s| > 0 && s[0].key != key {
      FindStable(s[1..], t[1..], key);
    }
  }

  /** `reportSuccess` is idempotent, and a no-op for an unknown key. */
  lemma SuccessIdempotent(s: seq<KeyState>, key: string)
    ensures SuccessStep(SuccessStep(s, key), key) == SuccessStep(s, key)
    ensures Find(s, key).None? ==> SuccessStep(s, key) == s
  {
    FindStable(s, SuccessStep(s, key), key);
  }

  /** `reportError` counts the failure; it quarantines the key until
      `now + COOLDOWN_MS` exactly when the failure is severe or the count
      reaches the threshold, and otherwise leaves health and deadline alone. */
  lemma ErrorStepEffect(s: seq<KeyState>, key: string, severe: bool, now: int)
    requires Find(s, key).Some?
    ensures var i := Find(s, key).value; var t := ErrorStep(s, key, severe, now);
      t[i].consecutiveErrors == s[i].consecutiveErrors + 1
      && t[i].key == s[i].key && t[i].index == s[i].index && t[i].lastUsed == s[i].lastUsed
      && (severe || s[i].consecutiveErrors + 1 >= ERROR_THRESHOLD ==>
            !t[i].healthy && t[i].cooldownUntil == Some(now + COOLDOWN_MS))
      && (!severe && s[i].consecutiveErrors + 1 < ERROR_THRESHOLD ==>
            t[i].healthy == s[i].healthy && t[i].cooldownUntil == s[i].cooldownUntil)
  {
  }

  /** A quarantine lasts exactly COOLDOWN_MS: the key is passed over before
      the deadline, and from the deadline on it is handed out again, healthy
      and with its failure count reset. */
  lemma QuarantineLastsCooldown(s: seq<KeyState>, key: string, severe: bool, now: int, later: int)
    requires Find(s, key).Some?
    requires severe || s[Find(s, key).value].consecutiveErrors + 1 >= ERROR_THRESHOLD
    requires now + COOLDOWN_MS != 0
    ensures var i := Find(s, key).value; var t := ErrorStep(s, key, severe, now);
      (CoolingDown(t[i], later) <==> later < now + COOLDOWN_MS)
      && (later >= now + COOLDOWN_MS ==>
            Take(t[i], later).healthy && Take(t[i], later).consecutiveErrors == 0)
  {
  }

  /** Three failures in a row quarantine a healthy key that had none; the
      first two leave it healthy. */
  lemma ThreeStrikes(s: seq<KeyState>, key: string, t1: int, t2: int, t3: int)
    requires Find(s, key).Some?
    requires s[Find(s, key).value].healthy && s[Find(s, key).value].consecutiveErrors == 0
    ensures var i := Find(s, key).value;
      var a := ErrorStep(s, key, false, t1);
      var b := ErrorStep(a, key, false, t2);
      var c := ErrorStep(b, key, false, t3);
      a[i].healthy && b[i].healthy
      && !c[i].healthy && c[i].cooldownUntil == Some(t3 + COOLDOWN_MS) && c[i].consecutiveErrors == 3
  {
    var a := ErrorStep(s, key, false, t1);
    var b := ErrorStep(a, key, false, t2);
    FindStable(s, a, key);
    FindStable(a, b, key);
  }

  /** Keys of up to eight characters all mask alike, and longer keys that
      share their first and last four characters mask alike: the mask does
      not reveal the rest of the key. */
  lemma MaskForgetsMiddle(a: string, b: string)
    requires (|a| <= 8 && |b| <= 8)
          || (|a| > 8 && |b| > 8 && a[..4] == b[..4] && a[|a| - 4..] == b[|b| - 4..])
    ensures Mask(a) == Mask(b)
  {
  }
}
