/** The repeat detector of the tool loop (src/llm.c): a ring of the last eight hashes. */
module RepeatGuard {
  const WINDOW: nat := 8

  /** The last hashes, as many as the ring can hold. */
  function Window(hashes: seq<nat>): seq<nat> {
    hashes[if |hashes| <= WINDOW then 0 else |hashes| - WINDOW..]
  }

  /** Inserts a hash that is not among the last ones. */
  function Admit(hashes: seq<nat>, hash: nat): seq<nat> {
    if hash in Window(hashes) then hashes else hashes + [hash]
  }

  function AdmitAll(hashes: seq<nat>): seq<nat> {
    if hashes == [] then [] else Admit(AdmitAll(hashes[..|hashes| - 1]), hashes[|hashes| - 1])
  }

  /** Any nine consecutive hashes are pairwise distinct. */
  ghost predicate NineDistinct(hashes: seq<nat>) {
    forall i, j :: 0 <= i < j < |hashes| && j - i <= WINDOW ==> hashes[i] != hashes[j]
  }

  lemma AdmitDistinct(hashes: seq<nat>, hash: nat)
    requires NineDistinct(hashes)
    ensures NineDistinct(Admit(hashes, hash))
  {
    if hash !in Window(hashes) {
      forall i | |hashes| - WINDOW <= i < |hashes| && 0 <= i
        ensures hashes[i] != hash
      {
        var low := |hashes| - |Window(hashes)|;
        assert Window(hashes)[i - low] == hashes[i];
      }
    }
  }

  /** After any sequence of questions, any nine consecutive admitted hashes are pairwise distinct. */
  lemma {:induction false} AnyNineDistinct(hashes: seq<nat>)
    ensures NineDistinct(AdmitAll(hashes))
  {
    if hashes != [] {
      var n := |hashes| - 1;
      AnyNineDistinct(hashes[..n]);
      AdmitDistinct(AdmitAll(hashes[..n]), hashes[n]);
    }
  }

  /** The ring holds exactly the window: the hash inserted as number `k` is at `k % 8`. */
  ghost predicate Ring(ring: seq<nat>, count: nat, pos: nat, admitted: seq<nat>) {
    && |ring| == WINDOW
    && count == |Window(admitted)| && pos == |admitted| % WINDOW
    && forall k :: |admitted| - count <= k < |admitted| ==> ring[k % WINDOW] == admitted[k]
  }

  /** Every used slot holds one of the last hashes. */
  lemma SlotIsRecent(ring: seq<nat>, count: nat, pos: nat, admitted: seq<nat>, i: nat)
    requires Ring(ring, count, pos, admitted) && i < count
    ensures ring[i] in Window(admitted) && Admit(admitted, ring[i]) == admitted
  {
    var k := SlotOwner(|admitted|, count, i);
    var low := |admitted| - count;
    assert Window(admitted)[k - low] == admitted[k] == ring[k % WINDOW];
  }

  lemma NotRecent(ring: seq<nat>, count: nat, pos: nat, admitted: seq<nat>, hash: nat)
    requires Ring(ring, count, pos, admitted) && forall k :: 0 <= k < count ==> ring[k] != hash
    ensures hash !in Window(admitted) && Admit(admitted, hash) == admitted + [hash]
  {
    var low := |admitted| - count;
    forall k | 0 <= k < count
      ensures Window(admitted)[k] != hash
    {
      assert Window(admitted)[k] == admitted[low + k] == ring[(low + k) % WINDOW];
      assert (low + k) % WINDOW < count;
    }
  }

  /** One more hash in the ring. */
  lemma RingGrows(ring: seq<nat>, count: nat, pos: nat, admitted: seq<nat>, hash: nat)
    requires Ring(ring, count, pos, admitted)
    ensures Ring(ring[pos := hash], if count < WINDOW then count + 1 else count, (pos + 1) % WINDOW, admitted + [hash])
  {
    var n, more := |admitted|, if count < WINDOW then count + 1 else count;
    forall k | n + 1 - more <= k < n + 1
      ensures ring[pos := hash][k % WINDOW] == (admitted + [hash])[k]
    {
      if k < n { OtherSlot(k, n); }
    }
  }

  /** `struct tool_loop_guard`; `admitted` are all hashes ever inserted. */
  class Guard {
    const recent: array<nat>
    var count: nat
    var pos: nat
    ghost var admitted: seq<nat>

    ghost predicate Valid()
      reads this, recent
    {
      Ring(recent[..], count, pos, admitted)
    }

    /** `tool_loop_guard_init` */
    constructor ()
      ensures Valid() && admitted == [] && fresh(recent)
    {
      recent := new nat[WINDOW](i => 0);
      count, pos, admitted := 0, 0, [];
    }

    /** `tool_loop_guard_seen` */
    method Seen(hash: nat) returns (seen: bool)
      requires Valid()
      modifies this, recent
      ensures Valid() && (seen <==> hash in Window(old(admitted)))
      ensures admitted == Admit(old(admitted), hash)
    {
      hide Admit;
      ghost var ring := recent[..];
      var i := 0;
      while i < count
        invariant i <= count && forall k :: 0 <= k < i ==> recent[k] != hash
      {
        if recent[i] == hash {
          SlotIsRecent(ring, count, pos, admitted, i);
          return true;
        }
        i := i + 1;
      }
      NotRecent(ring, count, pos, admitted, hash);
      RingGrows(ring, count, pos, admitted, hash);
      recent[pos] := hash;
      assert recent[..] == ring[pos := hash];
      if count < WINDOW { count := count + 1; }
      pos := (pos + 1) % WINDOW;
      admitted := admitted + [hash];
      return false;
    }
  }

  /** The hash number that lives in slot `i`. */
  lemma SlotOwner(n: nat, count: nat, i: nat) returns (k: nat)
    requires i < count <= WINDOW && (if n <= WINDOW then count == n else count == WINDOW)
    ensures n - count <= k < n && k % WINDOW == i
  {
    if n <= WINDOW {
      k := i;
    } else {
      var r := (n - 1) % WINDOW;
      k := if i <= r then n - 1 - (r - i) else n - 1 - (r + WINDOW - i);
    }
  }

  /** Two of eight consecutive numbers never share a slot. */
  lemma OtherSlot(k: nat, n: nat)
    requires k < n < k + WINDOW
    ensures k % WINDOW != n % WINDOW
  {
  }
}
