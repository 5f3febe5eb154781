/** The publisher's ring of recent video packets, from which NACKs are answered. */
module RtpCache {
  import opened Words
  import opened Ring

  const RTP_CACHE_SIZE := 512

  /** What the cache answers: the packet in the number's slot, if it carries that number. */
  function CacheGet(log: seq<Stored<seq<u8>>>, n: u16): Option<seq<u8>>
  {
    match Newest(log, RTP_CACHE_SIZE, n % RTP_CACHE_SIZE)
    case Some(e) => if |e.val| >= 12 && Be16(e.val, 2) == n then Some(e.val) else None
    case None => None
  }

  /** Every packet was stored under the number it carries. */
  ghost predicate WellKeyed(log: seq<Stored<seq<u8>>>)
  {
    forall i :: 0 <= i < |log| ==> |log[i].val| >= 12 && Be16(log[i].val, 2) == log[i].key
  }

  /** Then checking the packet's own number is checking the number it was stored under. */
  lemma GetIsLookup(log: seq<Stored<seq<u8>>>, n: u16)
    requires WellKeyed(log)
    ensures CacheGet(log, n) == Lookup(log, RTP_CACHE_SIZE, n)
  {
    var slot := n % RTP_CACHE_SIZE;
    NewestIsHeld(log, RTP_CACHE_SIZE, slot);
  }

  class RtpCache {
    const slots: array<Option<seq<u8>>>
    ghost var log: seq<Stored<seq<u8>>>

    ghost predicate Valid()
      reads this, slots
    {
      && slots.Length == RTP_CACHE_SIZE
      && forall c :: 0 <= c < RTP_CACHE_SIZE ==>
                       slots[c] == match Newest(log, RTP_CACHE_SIZE, c) case Some(e) => Some(e.val) case None => None
    }

    constructor ()
      ensures Valid() && fresh(slots) && log == []
    {
      slots := new Option<seq<u8>>[RTP_CACHE_SIZE](_ => None);
      log := [];
    }

    method Store(n: u16, plaintext: seq<u8>)
      requires Valid()
      modifies this, slots
      ensures Valid() && log == old(log) + [Stored(n, plaintext)]
    {
      var idx := n % RTP_CACHE_SIZE;
      slots[idx] := Some(plaintext);
      NewestAppend(log, Stored(n, plaintext), RTP_CACHE_SIZE);
      log := log + [Stored(n, plaintext)];
    }

    method Get(n: u16) returns (r: Option<seq<u8>>)
      requires Valid()
      ensures r == CacheGet(log, n)
      ensures WellKeyed(log) ==>
                forall p :: r == Some(p) <==> exists i :: Held(log, RTP_CACHE_SIZE, i) && log[i] == Stored(n, p)
    {
      var slot := slots[n % RTP_CACHE_SIZE];
      r := if slot.Some? && |slot.value| >= 12 && Be16(slot.value, 2) == n then slot else None;
      if WellKeyed(log) {
        GetIsLookup(log, n);
        forall p ensures r == Some(p) <==> exists i :: Held(log, RTP_CACHE_SIZE, i) && log[i] == Stored(n, p) {
          LookupIffHeld(log, RTP_CACHE_SIZE, n, p);
        }
      }
    }
  }
}
