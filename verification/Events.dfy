/**
 The event ring of the kernel, 128 slots overwritten in place, with the write counter, the subscription
 mask and the read cursor that `fujo_ctx_events` moves. The methods are proved against the unbounded
 log, of which the ring holds the newest entries.
 */
module Events {
  import opened Bytes
  import opened EventLog
  import opened Ring

  class EventRing {
    const slots: array<Event>
    var w: nat
    var c: nat
    var sub: u64
    ghost var log: seq<Event>

    ghost predicate Valid()
      reads this, slots
    {
      slots.Length == RING && w == |log| && Ok(View()) && Holds(slots[..], log, RING)
    }

    ghost function View(): Channel
      reads this
    {
      Channel(log, c, sub)
    }

    constructor ()
      ensures Valid() && fresh(slots) && log == []
    {
      slots := new Event[RING](_ => Event(0, 0, 0, 0, 0));
      w, c, sub := 0, 0, 0x1F;
      log := [];
    }

    /** `ev_push` at time `now`. */
    method EvPush(now: u64, kind: u64, pid: u64, a: u64, b: u64)
      requires Valid()
      modifies this, slots
      ensures Valid() && View() == Push(old(View()), Event(now, kind % 256, pid, a, b))
    {
      var e := Event(now, kind % 256, pid, a, b);
      HoldsPush(slots[..], log, RING, e);
      slots[w % RING] := e;
      w := w + 1;
      if w - c > RING {
        c := w - RING;
      }
      log := log + [e];
    }

    /** `fujo_ctx_subscribe` */
    method CtxSubscribe(mask: u64)
      requires Valid()
      modifies this
      ensures Valid() && View() == Subscribe(old(View()), mask)
    {
      sub := mask;
      c := w;
    }

    /** `fujo_ctx_events` into a buffer of cap bytes at ptr: the records copied out, or -14. */
    method CtxEvents(ptr: u64, cap: nat) returns (rc: int, records: seq<Event>)
      requires Valid()
      modifies this
      ensures Valid()
      ensures var bad := !(0x40_0000 <= ptr < 0x80_0000);
              var t := old(Take(log, c, sub, cap / 40));
              && log == old(log) && sub == old(sub)
              && (bad ==> rc == -14 && records == [] && c == old(c))
              && (!bad ==> rc == |records| == |t.out| && c == t.cursor
                           && forall i | 0 <= i < |records| :: t.out[i] < |log| && records[i] == log[t.out[i]])
    {
      if !(0x40_0000 <= ptr < 0x80_0000) {
        return -14, [];
      }
      var n: nat := 0;
      var at := c;
      var mask := sub;
      records := [];
      ghost var all, room := Take(log, c, sub, cap / RECORD), cap / RECORD;
      ghost var out: seq<nat> := [];
      while at < w
        modifies {}
        invariant c <= at <= w && n == |records| == |out| <= room
        invariant all == Prepend(out, Take(log, at, mask, room - n))
        invariant forall i | 0 <= i < n :: out[i] < |log| && records[i] == log[out[i]]
      {
        var s := slots[at % RING];
        assert s == log[at] by {
          assert slots[..][at % RING] == log[at];
        }
        at := at + 1;
        if Passes(mask, s.kind) {
          if (n + 1) * RECORD > cap {
            assert Take(log, at - 1, mask, 0) == Taken(at, [], Some(at - 1));
            break;
          }
          PrependOne(out, at - 1, Take(log, at, mask, room - n - 1));
          records := records + [s];
          out := out + [at - 1];
          n := n + 1;
        }
      }
      assert out + [] == out;
      TakeMeaning(log, c, sub, room, all);
      c := at;
      return n, records;
    }

    /** `ev_delta_critical` */
    method EvDeltaCritical(from: nat, crit: u64) returns (n: nat)
      requires Valid()
      ensures n == DeltaCritical(log, from, crit)
    {
      if w <= from {
        return 0;
      }
      n := 0;
      var i := w;
      var limit := if w - from > RING then w - RING else from;
      while i > limit
        invariant limit <= i <= w && n == CountCritical(log, i, crit)
      {
        i := i - 1;
        var k := slots[i % RING].kind;
        assert slots[..][i % RING] == log[i];
        if k >= 1 && k <= 64 && TestBit(crit, k - 1) {
          n := n + 1;
        }
      }
    }
  }

  function Prepend(out: seq<nat>, t: Taken): Taken {
    t.(out := out + t.out)
  }

  lemma PrependOne(out: seq<nat>, i: nat, t: Taken)
    ensures Prepend(out, t.(out := [i] + t.out)) == Prepend(out + [i], t)
  {
    assert out + ([i] + t.out) == (out + [i]) + t.out;
  }
}
