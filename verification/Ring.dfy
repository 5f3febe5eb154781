/**
 A ring of slots keyed by a wrapping 16-bit sequence number, seen as an append-only log.
 Storing under `key` overwrites slot `key % size`; what a slot holds is the newest entry
 of the log in that slot's class.
 */
module Ring {
  import opened Words

  datatype Stored<+T> = Stored(key: u16, val: T)

  /** The newest entry of the log that went to `slot`. */
  function Newest<T>(log: seq<Stored<T>>, size: int, slot: int): (r: Option<Stored<T>>)
    requires 0 < size
    ensures r.Some? ==> r.value in log && r.value.key % size == slot
  {
    if log == [] then None
    else if log[|log| - 1].key % size == slot then Some(log[|log| - 1])
    else Newest(log[..|log| - 1], size, slot)
  }

  lemma NewestAppend<T>(log: seq<Stored<T>>, e: Stored<T>, size: int)
    requires 0 < size
    ensures forall slot ::
              Newest(log + [e], size, slot) == if e.key % size == slot then Some(e) else Newest(log, size, slot)
  {
    assert (log + [e])[..|log|] == log;
  }

  /** What a lookup that validates the stored key answers. */
  function Lookup<T>(log: seq<Stored<T>>, size: int, key: u16): Option<T>
    requires 0 < size
  {
    match Newest(log, size, key % size)
    case Some(e) => if e.key == key then Some(e.val) else None
    case None => None
  }

  /** Entry `i` is still held: nothing later went to its slot. */
  ghost predicate Held<T>(log: seq<Stored<T>>, size: int, i: int)
    requires 0 < size
  {
    0 <= i < |log| && forall j :: i < j < |log| ==> log[j].key % size != log[i].key % size
  }

  lemma {:induction false} NewestIsHeld<T>(log: seq<Stored<T>>, size: int, slot: int)
    requires 0 < size
    ensures Newest(log, size, slot).Some? ==>
              exists i :: Held(log, size, i) && log[i] == Newest(log, size, slot).value
    ensures Newest(log, size, slot).None? ==>
              forall i :: 0 <= i < |log| ==> log[i].key % size != slot
  {
    if log != [] {
      var n := |log| - 1;
      if log[n].key % size == slot {
        assert Held(log, size, n);
      } else {
        NewestIsHeld(log[..n], size, slot);
        if Newest(log, size, slot).Some? {
          var i :| Held(log[..n], size, i) && log[..n][i] == Newest(log, size, slot).value;
          assert Held(log, size, i);
        } else {
          assert forall i :: 0 <= i < n ==> log[i] == log[..n][i];
        }
      }
    }
  }

  lemma {:induction false} HeldIsNewest<T>(log: seq<Stored<T>>, size: int, i: int)
    requires 0 < size && Held(log, size, i)
    ensures Newest(log, size, log[i].key % size) == Some(log[i])
  {
    if i < |log| - 1 {
      HeldIsNewest(log[..|log| - 1], size, i);
    }
  }

  /** A lookup succeeds exactly when the newest entry of the slot class carries the number asked for. */
  lemma LookupIffHeld<T>(log: seq<Stored<T>>, size: int, key: u16, v: T)
    requires 0 < size
    ensures Lookup(log, size, key) == Some(v) <==>
            exists i :: Held(log, size, i) && log[i] == Stored(key, v)
  {
    NewestIsHeld(log, size, key % size);
    if i :| Held(log, size, i) && log[i] == Stored(key, v) {
      HeldIsNewest(log, size, i);
    }
  }

  // --- unbounded numbers ---

  /** A store under an unbounded sequence number, of which the ring sees the low 16 bits. */
  datatype Numbered<+T> = Numbered(n: int, val: T)

  function Low<T>(xs: seq<Numbered<T>>): (r: seq<Stored<T>>)
    ensures |r| == |xs|
    ensures forall i :: 0 <= i < |xs| ==> r[i] == Stored(Wrap16(xs[i].n), xs[i].val)
  {
    seq(|xs|, i requires 0 <= i < |xs| => Stored(Wrap16(xs[i].n), xs[i].val))
  }

  /** The newest store that went to the slot of `n`. */
  function SlotTop<T>(xs: seq<Numbered<T>>, size: int, n: int): (i: Option<nat>)
    requires 0 < size
    ensures i.Some? ==> i.value < |xs|
  {
    if xs == [] then None
    else if xs[|xs| - 1].n % size == n % size then Some(|xs| - 1)
    else SlotTop(xs[..|xs| - 1], size, n)
  }

  /** The store a lookup of `n` answers from: the top of its slot, if the low 16 bits agree. */
  function Answered<T>(xs: seq<Numbered<T>>, size: int, n: int): (i: Option<nat>)
    requires 0 < size
    ensures i.Some? ==> i.value < |xs|
  {
    match SlotTop(xs, size, n)
    case Some(i) => if (xs[i].n - n) % 0x1_0000 == 0 then Some(i) else None
    case None => None
  }

  /** The newest store under exactly the unbounded number `n`: what a lookup should answer from. */
  function LastUnder<T>(xs: seq<Numbered<T>>, n: int): (i: Option<nat>)
    ensures i.Some? ==> i.value < |xs| && xs[i.value].n == n
  {
    if xs == [] then None
    else if xs[|xs| - 1].n == n then Some(|xs| - 1)
    else LastUnder(xs[..|xs| - 1], n)
  }

  function ValueAt<T>(xs: seq<Numbered<T>>, i: Option<nat>): Option<T>
    requires i.Some? ==> i.value < |xs|
  {
    match i
    case Some(i) => Some(xs[i].val)
    case None => None
  }

  /** The slot's top is a different number that looks like `n` in 16 bits. */
  ghost predicate Aliased<T>(xs: seq<Numbered<T>>, size: int, n: int)
    requires 0 < size
  {
    var top := SlotTop(xs, size, n);
    top.Some? && xs[top.value].n != n && (xs[top.value].n - n) % 0x1_0000 == 0
  }

  /** `n` was stored, but a number that does not look like it took its slot since. */
  ghost predicate Overwritten<T>(xs: seq<Numbered<T>>, size: int, n: int)
    requires 0 < size
  {
    var top := SlotTop(xs, size, n);
    && top.Some? && (xs[top.value].n - n) % 0x1_0000 != 0
    && exists i :: 0 <= i < |xs| && xs[i].n == n
  }

  /** Ring sizes the program uses divide 2^16, so a slot depends on the unbounded number alone. */
  lemma SlotOfLow(n: int, size: int)
    requires size == 512 || size == 8192
    ensures Wrap16(n) % size == n % size
  {
    var q, w: int := n / 0x1_0000, Wrap16(n);
    assert n == 0x1_0000 * q + w;
    if size == 512 {
      Residue512(n, 128 * q + w / 512, w % 512);
    } else {
      Residue8192(n, 8 * q + w / 8192, w % 8192);
    }
  }

  lemma Residue512(x: int, k: int, r: int)
    requires x == 512 * k + r && 0 <= r < 512
    ensures x % 512 == r
  {
  }

  lemma Residue8192(x: int, k: int, r: int)
    requires x == 8192 * k + r && 0 <= r < 8192
    ensures x % 8192 == r
  {
  }

  /**
   Over any history of unbounded numbers, however far apart: the ring answers from the top of
   the slot when that looks like `n` in 16 bits, and not at all otherwise.
   */
  lemma {:induction false} LookupIsAnswered<T>(xs: seq<Numbered<T>>, size: int, n: int)
    requires size == 512 || size == 8192
    ensures Lookup(Low(xs), size, Wrap16(n)) == ValueAt(xs, Answered(xs, size, n))
  {
    SlotOfLow(n, size);
    if xs != [] {
      var k := |xs| - 1;
      assert Low(xs)[..k] == Low(xs[..k]);
      SlotOfLow(xs[k].n, size);
      SameLow(xs[k].n, n);
      LookupIsAnswered(xs[..k], size, n);
    }
  }

  lemma SameLow(a: int, b: int)
    ensures Wrap16(a) == Wrap16(b) <==> (a - b) % 0x1_0000 == 0
  {
  }

  lemma {:induction false} SlotTopIsNewest<T>(xs: seq<Numbered<T>>, size: int, n: int)
    requires 0 < size
    ensures match SlotTop(xs, size, n)
            case Some(i) =>
              && xs[i].n % size == n % size && (forall j :: i < j < |xs| ==> xs[j].n % size != n % size)
              && (xs[i].n == n ==> LastUnder(xs, n) == Some(i))
            case None => forall j :: 0 <= j < |xs| ==> xs[j].n % size != n % size
    ensures LastUnder(xs, n).None? <==> forall j :: 0 <= j < |xs| ==> xs[j].n != n
  {
    if xs != [] {
      var less := xs[..|xs| - 1];
      SlotTopIsNewest(less, size, n);
      assert forall j :: 0 <= j < |less| ==> xs[j] == less[j];
    }
  }

  /**
   The ring answers from the store it should, over any history, if and only if `n` is neither
   aliased nor overwritten.
   */
  lemma RingIsExactIff<T>(xs: seq<Numbered<T>>, size: int, n: int)
    requires 0 < size
    ensures Answered(xs, size, n) == LastUnder(xs, n) <==> !Aliased(xs, size, n) && !Overwritten(xs, size, n)
  {
    SlotTopIsNewest(xs, size, n);
  }

  /** Both ways to be wrong about whether a number was stored at all. */
  lemma FalseAnswers<T>(xs: seq<Numbered<T>>, size: int, n: int)
    requires 0 < size
    ensures LastUnder(xs, n).None? ==> (Answered(xs, size, n).Some? <==> Aliased(xs, size, n))
    ensures LastUnder(xs, n).Some? ==> (Answered(xs, size, n).None? <==> Overwritten(xs, size, n))
  {
    SlotTopIsNewest(xs, size, n);
  }

  lemma OverwrittenWasStored<T>(xs: seq<Numbered<T>>, size: int, n: int)
    requires 0 < size
    ensures Overwritten(xs, size, n) ==> LastUnder(xs, n).Some?
  {
    SlotTopIsNewest(xs, size, n);
  }

  lemma NearbyResidues(a: int, b: int, size: int)
    requires size == 512 || size == 8192
    requires -size < a - b < size
    ensures a % size == b % size <==> a == b
  {
    if size == 512 {
      assert a % 512 == b % 512 ==> a - b == 512 * (a / 512 - b / 512);
    } else {
      assert a % 8192 == b % 8192 ==> a - b == 8192 * (a / 8192 - b / 8192);
    }
  }

  /**
   Whatever came before: once everything stored lies in one window of consecutive numbers no
   longer than the ring, each number stored in it is answered from its own newest store,
   across the 16-bit wrap included.
   */
  lemma {:induction false} WindowIsExact<T>(xs: seq<Numbered<T>>, size: int, from: nat, lo: int, n: int)
    requires size == 512 || size == 8192
    requires forall i :: from <= i < |xs| ==> lo <= xs[i].n < lo + size
    requires exists i :: from <= i < |xs| && xs[i].n == n
    ensures LastUnder(xs, n).Some? && Answered(xs, size, n) == LastUnder(xs, n)
    ensures Lookup(Low(xs), size, Wrap16(n)) == ValueAt(xs, LastUnder(xs, n))
  {
    SlotTopIsNewest(xs, size, n);
    LookupIsAnswered(xs, size, n);
    var i :| from <= i < |xs| && xs[i].n == n;
    NearbyResidues(xs[SlotTop(xs, size, n).value].n, n, size);
  }
}
