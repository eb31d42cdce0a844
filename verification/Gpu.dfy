/** Which GPUs a name accepts, and leasing several at once. */
module Gpu {
  import opened Names
  import opened Wrappers

  type Words = seq<string>

  // --- names ---

  /** The words of `wanted` stand at these places of `words`, in order. */
  ghost predicate StandsAt(wanted: Words, words: Words, places: seq<nat>) {
    && |places| == |wanted|
    && (forall i :: 0 <= i < |places| ==> places[i] < |words| && words[places[i]] == wanted[i])
    && (forall i, j :: 0 <= i < j < |places| ==> places[i] < places[j])
  }

  ghost predicate Includes(words: Words, wanted: Words) {
    exists places: seq<nat> :: StandsAt(wanted, words, places)
  }

  /** Every way to place the words ends at or after `last`. */
  ghost predicate EarliestEnd(wanted: Words, words: Words, taken: nat) {
    forall places: seq<nat> :: StandsAt(wanted, words, places) && |places| > 0 ==> places[|places| - 1] + 1 >= taken
  }

  lemma {:induction false} PrefixStands(wanted: Words, words: Words, places: seq<nat>)
    requires |wanted| > 0 && StandsAt(wanted, words, places)
    ensures StandsAt(wanted[..|wanted| - 1], words, places[..|places| - 1])
  {}

  method NextWord(words: Words, start: nat, word: string) returns (next: nat)
    requires start <= |words|
    ensures start <= next <= |words|
    ensures forall i :: start <= i < next ==> words[i] != word
    ensures next < |words| ==> words[next] == word
  {
    next := start;
    while next < |words| && words[next] != word
      invariant start <= next <= |words|
      invariant forall i :: start <= i < next ==> words[i] != word
    {
      next := next + 1;
    }
  }

  lemma {:induction false} OneMoreStands(wanted: Words, words: Words, places: seq<nat>, k: nat, next: nat)
    requires k < |wanted| && next < |words| && words[next] == wanted[k]
    requires StandsAt(wanted[..k], words, places) && (k > 0 ==> places[k - 1] < next)
    ensures StandsAt(wanted[..k + 1], words, places + [next])
  {
    assert wanted[..k + 1] == wanted[..k] + [wanted[k]];
  }

  /** Taking each word as soon as it comes decides whether all of them come, in order. */
  method AllRemain(wanted: Words, words: Words) returns (all: bool)
    ensures all <==> Includes(words, wanted)
  {
    var taken := 0;
    var k := 0;
    ghost var places: seq<nat> := [];
    while k < |wanted|
      invariant 0 <= k <= |wanted| && 0 <= taken <= |words|
      invariant StandsAt(wanted[..k], words, places)
      invariant taken == if k == 0 then 0 else places[k - 1] + 1
      invariant EarliestEnd(wanted[..k], words, taken)
    {
      var next := NextWord(words, taken, wanted[k]);
      LaterOnly(wanted, words, k, taken, next);
      if next == |words| { return false; }
      OneMoreStands(wanted, words, places, k, next);
      places := places + [next];
      k := k + 1;
      taken := next + 1;
    }
    assert wanted[..k] == wanted;
    return true;
  }

  /** No way to place one word more ends before `next`. */
  lemma {:induction false} LaterOnly(wanted: Words, words: Words, k: nat, taken: nat, next: nat)
    requires k < |wanted| && taken <= next <= |words|
    requires EarliestEnd(wanted[..k], words, taken) && (k == 0 ==> taken == 0)
    requires forall i :: taken <= i < next ==> words[i] != wanted[k]
    ensures EarliestEnd(wanted[..k + 1], words, next + 1)
    ensures next == |words| ==> !Includes(words, wanted)
  {
    var more := wanted[..k + 1];
    forall places: seq<nat> | StandsAt(more, words, places) && |places| > 0
      ensures places[|places| - 1] >= next
    {
      PrefixStands(more, words, places);
      assert more[..k] == wanted[..k];
      var before := places[..k];
      if k > 0 { assert before[|before| - 1] + 1 >= taken; }
      assert places[k] >= taken && words[places[k]] == wanted[k];
    }
    if next == |words| {
      forall places: seq<nat> ensures !StandsAt(more, words, places) {}
      if Includes(words, wanted) { PrefixIncluded(wanted, words, k + 1); }
    }
  }

  lemma {:induction false} PrefixIncluded(wanted: Words, words: Words, k: nat)
    requires k <= |wanted| && Includes(words, wanted)
    ensures Includes(words, wanted[..k])
  {
    var places: seq<nat> :| StandsAt(wanted, words, places);
    assert StandsAt(wanted[..k], words, places[..k]);
  }

  /** A name accepts a model that has all its words in order; no names accept every model. */
  method AcceptsModel(names: seq<Words>, model: Words) returns (accepted: bool)
    ensures accepted <==> |names| == 0 || exists i :: 0 <= i < |names| && |names[i]| > 0 && Includes(model, names[i])
  {
    var i := 0;
    while i < |names|
      invariant 0 <= i <= |names|
      invariant forall k :: 0 <= k < i ==> |names[k]| == 0 || !Includes(model, names[k])
    {
      if |names[i]| > 0 {
        var all := AllRemain(names[i], model);
        if all { return true; }
      }
      i := i + 1;
    }
    return |names| == 0;
  }

  // --- leases ---

  function InsertKey(key: string, keys: seq<string>): (r: seq<string>)
    ensures forall k :: k in r <==> k == key || k in keys
  {
    if |keys| == 0 then [key]
    else if key == keys[0] then keys
    else if AtMost(key, keys[0]) then [key] + keys
    else [keys[0]] + InsertKey(key, keys[1..])
  }

  /** `sorted(set(candidates))`. */
  function SortedKeys(candidates: seq<string>): (keys: seq<string>)
    ensures forall k :: k in keys <==> k in candidates
  {
    if |candidates| == 0 then [] else InsertKey(candidates[0], SortedKeys(candidates[1..]))
  }

  predicate NoRepeats(keys: seq<string>) { forall i, j :: 0 <= i < j < |keys| ==> keys[i] != keys[j] }

  predicate Ascending(keys: seq<string>) {
    forall i, j :: 0 <= i < j < |keys| ==> AtMost(keys[i], keys[j]) && keys[i] != keys[j]
  }

  lemma {:induction false} InsertKeepsAscending(key: string, keys: seq<string>)
    requires Ascending(keys)
    ensures Ascending(InsertKey(key, keys))
  {
    if |keys| > 0 && key != keys[0] {
      if AtMost(key, keys[0]) {
        forall j | 0 <= j < |keys| ensures AtMost(key, keys[j]) && key != keys[j] {
          if j > 0 {
            AtMostIsTransitive(key, keys[0], keys[j]);
            if key == keys[j] { AtMostIsAntisymmetric(keys[0], keys[j]); }
          }
        }
      } else {
        AtMostIsTotal(key, keys[0]);
        InsertKeepsAscending(key, keys[1..]);
        var rest := InsertKey(key, keys[1..]);
        forall j | 0 <= j < |rest| ensures AtMost(keys[0], rest[j]) && keys[0] != rest[j] {
          assert rest[j] in rest;
          if rest[j] != key {
            var i :| 0 <= i < |keys[1..]| && keys[1..][i] == rest[j];
            assert keys[i + 1] == rest[j];
          }
        }
      }
    }
  }

  lemma {:induction false} AtMostIsAntisymmetric(a: string, b: string)
    requires AtMost(a, b) && AtMost(b, a)
    ensures a == b
  {
    if |a| > 0 && |b| > 0 {
      AtMostIsAntisymmetric(a[1..], b[1..]);
      assert a == [a[0]] + a[1..] && b == [b[0]] + b[1..];
    }
  }

  lemma {:induction false} SortedKeysAscend(candidates: seq<string>)
    ensures Ascending(SortedKeys(candidates))
  {
    if |candidates| > 0 {
      SortedKeysAscend(candidates[1..]);
      InsertKeepsAscending(candidates[0], SortedKeys(candidates[1..]));
    }
  }

  /** The keys nobody holds, in order. */
  function Available(keys: seq<string>, held: set<string>): seq<string> {
    if |keys| == 0 then []
    else Available(keys[..|keys| - 1], held) + if keys[|keys| - 1] in held then [] else [keys[|keys| - 1]]
  }

  function Members(keys: seq<string>): set<string> { set k | k in keys }

  lemma {:induction false} AvailableKeys(keys: seq<string>, held: set<string>)
    requires NoRepeats(keys)
    ensures NoRepeats(Available(keys, held))
    ensures forall k :: k in Available(keys, held) <==> k in keys && k !in held
  {
    if |keys| > 0 {
      var before := keys[..|keys| - 1];
      AvailableKeys(before, held);
      assert keys == before + [keys[|keys| - 1]];
      assert forall i :: 0 <= i < |before| ==> before[i] == keys[i];
    }
  }

  lemma {:induction false} AvailableGrows(keys: seq<string>, held: set<string>, i: nat)
    requires i <= |keys|
    ensures Available(keys[..i], held) <= Available(keys, held)
    decreases |keys|
  {
    if i < |keys| {
      AvailableGrows(keys[..|keys| - 1], held, i);
      assert keys[..|keys| - 1][..i] == keys[..i];
    } else {
      assert keys[..i] == keys;
    }
  }

  datatype LeaseError = NotPositive | TooFewCandidates | TooFewAvailable

  class Locks {
    var held: set<string>

    constructor (held: set<string>)
      ensures this.held == held
    {
      this.held := held;
    }
  }

  class Lease {
    const locks: Locks
    var keys: seq<string>
    var released: bool

    constructor (locks: Locks, keys: seq<string>)
      ensures this.locks == locks && this.keys == keys && !released
    {
      this.locks, this.keys, released := locks, keys, false;
    }

    /** Releasing twice is releasing once. */
    method Release()
      modifies this, locks
      ensures released
      ensures locks.held == if old(released) then old(locks.held) else old(locks.held) - Members(keys)
      ensures keys == old(keys)
    {
      if released { return; }
      var i := 0;
      while i < |keys|
        invariant 0 <= i <= |keys| && keys == old(keys) && !released
        invariant locks.held == old(locks.held) - Members(keys[..i])
      {
        locks.held := locks.held - {keys[i]};
        assert keys[..i + 1] == keys[..i] + [keys[i]];
        i := i + 1;
      }
      assert keys[..i] == keys;
      released := true;
    }
  }

  /** All or nothing: the first `count` candidates that nobody holds, or an error and no lock kept. */
  method Acquire(locks: Locks, candidates: seq<string>, count: int) returns (lease: Result<Lease, LeaseError>)
    modifies locks
    ensures lease == Err(NotPositive) <==> count < 1
    ensures lease == Err(TooFewCandidates) <==> count >= 1 && |SortedKeys(candidates)| < count
    ensures lease == Err(TooFewAvailable) <==>
      count >= 1 && |SortedKeys(candidates)| >= count && |Available(SortedKeys(candidates), old(locks.held))| < count
    ensures lease.Err? ==> locks.held == old(locks.held)
    ensures lease.Ok? ==>
      && fresh(lease.value) && lease.value.locks == locks && !lease.value.released
      && count <= |Available(SortedKeys(candidates), old(locks.held))|
      && lease.value.keys == Available(SortedKeys(candidates), old(locks.held))[..count]
      && NoRepeats(lease.value.keys) && Members(lease.value.keys) !! old(locks.held)
      && locks.held == old(locks.held) + Members(lease.value.keys)
  {
    if count < 1 { return Err(NotPositive); }
    var keys := SortedKeys(candidates);
    if |keys| < count { return Err(TooFewCandidates); }
    SortedKeysAscend(candidates);
    ghost var held := locks.held;
    AvailableKeys(keys, held);
    var selected := TakeFree(locks, keys, count);
    AvailableOnly(selected, Available(keys, held), held);
    if |selected| == count {
      var l := new Lease(locks, selected);
      return Ok(l);
    }
    UnlockAll(locks, selected, held);
    return Err(TooFewAvailable);
  }

  lemma {:induction false} AvailableOnly(selected: seq<string>, free: seq<string>, held: set<string>)
    requires NoRepeats(free) && selected <= free && forall k :: k in free ==> k !in held
    ensures NoRepeats(selected) && Members(selected) !! held
  {
    forall k | k in selected ensures k !in held { assert k in free; }
  }

  /** Lock the keys that can be locked, until there are enough. */
  method TakeFree(locks: Locks, keys: seq<string>, count: nat) returns (selected: seq<string>)
    requires NoRepeats(keys) && count > 0
    modifies locks
    ensures var free := Available(keys, old(locks.held));
      selected == if |free| < count then free else free[..count]
    ensures locks.held == old(locks.held) + Members(selected)
  {
    ghost var held := locks.held;
    selected := [];
    var i := 0;
    while i < |keys|
      invariant 0 <= i <= |keys| && |selected| < count
      invariant selected == Available(keys[..i], held)
      invariant locks.held == held + Members(selected)
    {
      assert keys[..i + 1][..i] == keys[..i];
      NotTakenBefore(keys, i, held);
      if keys[i] !in locks.held {
        locks.held := locks.held + {keys[i]};
        selected := selected + [keys[i]];
        if |selected| == count {
          AvailableGrows(keys, held, i + 1);
          return;
        }
      }
      i := i + 1;
    }
    assert keys[..i] == keys;
  }

  lemma {:induction false} NotTakenBefore(keys: seq<string>, i: nat, held: set<string>)
    requires NoRepeats(keys) && i < |keys|
    ensures keys[i] !in Members(Available(keys[..i], held))
  {
    AvailableKeys(keys[..i], held);
  }

  method UnlockAll(locks: Locks, selected: seq<string>, ghost before: set<string>)
    requires locks.held == before + Members(selected) && Members(selected) !! before
    modifies locks
    ensures locks.held == before
  {
    var i := 0;
    while i < |selected|
      invariant 0 <= i <= |selected|
      invariant locks.held == before + Members(selected) - Members(selected[..i])
    {
      locks.held := locks.held - {selected[i]};
      assert selected[..i + 1] == selected[..i] + [selected[i]];
      i := i + 1;
    }
    assert selected[..i] == selected;
  }
}
