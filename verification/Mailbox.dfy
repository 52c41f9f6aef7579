/** The rendezvous: six write-once slots per session. */
module Mailbox {
  import opened Prelude

  datatype Slot = Msg1 | Msg2 | ConfirmJoiner | ConfirmHost | Request | Accept

  datatype SlotOutcome = Written | AlreadyTaken

  type Slots = map<(string, Slot), Bytes>

  function PutSlot(m: Slots, session: string, slot: Slot, body: Bytes): Slots {
    if (session, slot) in m then m else m[(session, slot) := body]
  }

  function PutOutcome(m: Slots, session: string, slot: Slot): SlotOutcome {
    if (session, slot) in m then AlreadyTaken else Written
  }

  /** Everything written stays as written. */
  ghost predicate Extends(after: Slots, before: Slots) {
    forall k :: k in before ==> k in after && after[k] == before[k]
  }

  /** A write somebody attempts. */
  datatype Write = Write(key: (string, Slot), body: Bytes)

  function PutAll(ws: seq<Write>): Slots {
    if ws == [] then map[]
    else
      var w := ws[|ws| - 1];
      PutSlot(PutAll(ws[..|ws| - 1]), w.key.0, w.key.1, w.body)
  }

  ghost predicate IsFirst(ws: seq<Write>, i: nat, k: (string, Slot)) {
    i < |ws| && ws[i].key == k && forall j :: 0 <= j < i ==> ws[j].key != k
  }

  /** Whoever writes a slot first decides what it holds; it is empty exactly while
      nobody has. */
  lemma {:induction false} FirstWriterWins(ws: seq<Write>, k: (string, Slot))
    ensures k in PutAll(ws) <==> exists i :: 0 <= i < |ws| && ws[i].key == k
    ensures forall i: nat :: IsFirst(ws, i, k) ==> k in PutAll(ws) && PutAll(ws)[k] == ws[i].body
  {
    if ws != [] {
      var init, last := ws[..|ws| - 1], |ws| - 1;
      FirstWriterWins(init, k);
      if i :| 0 <= i < |init| && init[i].key == k { assert ws[i].key == k; }
      forall i: nat | IsFirst(ws, i, k) ensures k in PutAll(ws) && PutAll(ws)[k] == ws[i].body {
        if i < last { assert IsFirst(init, i, k); }
      }
    }
  }

  class MemoryMailbox {
    var slots: Slots

    constructor ()
      ensures slots == map[]
    {
      slots := map[];
    }

    method Put(session: string, slot: Slot, body: Bytes) returns (outcome: SlotOutcome)
      modifies this
      ensures slots == PutSlot(old(slots), session, slot, body) && Extends(slots, old(slots))
      ensures outcome == PutOutcome(old(slots), session, slot)
    {
      var key := (session, slot);
      if key in slots {
        return AlreadyTaken;
      }
      slots := slots[key := body];
      return Written;
    }

    method Get(session: string, slot: Slot) returns (body: Option<Bytes>)
      ensures body.Some? <==> (session, slot) in slots
      ensures body.Some? ==> slots[(session, slot)] == body.value
    {
      var key := (session, slot);
      return if key in slots then Some(slots[key]) else None;
    }
  }
}
