/** The queue at call granularity (src/lib_bsp/shmc/shm_queue.h). */
module Queue {
  import opened Bytes
  import opened QueueRep

  class ShmQueue {
    const buf: array<Byte>
    var headPos: nat
    var tailPos: nat
    ghost var layout: Layout

    ghost function State(): Ring
      reads this, buf
    {
      Ring(buf[..], headPos, tailPos)
    }

    ghost predicate Valid()
      reads this, buf
    {
      RingOk(State(), layout)
    }

    ghost function Contents(): seq<Msg>
      reads this
    {
      layout.Msgs()
    }

    /** A push of `len` bytes finds room behind the tail or, after wrapping, before the head. */
    ghost predicate HasRoom(len: nat)
      reads this, buf
    {
      RoomAt(State(), tailPos, len) || RoomAt(State(), 0, len)
    }

    /** The bytes at the tail begin an end flag. */
    ghost predicate EndTagged()
      reads this, buf
    {
      tailPos + 2 < buf.Length && buf[tailPos] == 0xec && buf[tailPos + 1] == 0x9c && buf[tailPos + 2] == 2
    }

    constructor (bufSize: nat)
      requires bufSize >= 1024
      ensures Valid() && Contents() == [] && fresh(buf) && bufSize <= buf.Length < bufSize + ALIGN
    {
      var n := RoundAlign(bufSize, ALIGN);
      buf := new Byte[n](_ => 0);
      headPos, tailPos, layout := 0, 0, Layout([], 0, []);
    }

    method StoreHeader(p: nat, kind: Byte, len: nat)
      requires p + NODE_HEAD <= buf.Length
      modifies buf
      ensures buf[..] == Splice(old(buf[..]), p, Header(kind, len))
      ensures forall i :: 0 <= i < buf.Length && !(p <= i < p + NODE_HEAD) ==> buf[i] == old(buf[i])
    {
      var h := Header(kind, len);
      for i := 0 to NODE_HEAD
        invariant buf[..] == Splice(old(buf[..]), p, h[..i])
        invariant forall k :: 0 <= k < buf.Length && !(p <= k < p + NODE_HEAD) ==> buf[k] == old(buf[k])
      {
        buf[p + i] := h[i];
      }
      assert h[..NODE_HEAD] == h;
    }

    /** Writes the end flag at the tail. */
    method StoreEndFlag()
      requires Valid() && headPos <= tailPos
      modifies buf
      ensures Valid() && EndAt(buf[..], tailPos)
      ensures forall w', len' :: old(Granted(State(), w', len')) ==> Granted(State(), w', len')
      ensures forall i :: 0 <= i < buf.Length && !(tailPos <= i < tailPos + NODE_HEAD) ==> buf[i] == old(buf[i])
    {
      ghost var r := State();
      StoreHeader(tailPos, END_NODE, buf.Length - tailPos - NODE_HEAD);
      assert State() == r.(mem := buf[..]);
      EndStored(r, layout, buf[..]);
    }

    /**
     * First half of a push: finds room and returns its place.  The visible queue does not change,
     * and descriptors that were prepared earlier remain good.
     */
    method PushPrepare(len: nat) returns (ok: bool, w: nat)
      requires Valid()
      modifies buf
      ensures Valid() && Contents() == old(Contents())
      ensures ok <==> old(HasRoom(len))
      ensures var n := (8 + len + 63) / 64 * 64;
              ok <==> if headPos <= tailPos then tailPos + n < buf.Length || n < headPos else tailPos + n < headPos
      ensures ok ==> Granted(State(), w, len) && w + NODE_HEAD + len <= buf.Length
      ensures forall w', len' :: old(Granted(State(), w', len')) ==> Granted(State(), w', len')
      ensures forall i :: 0 <= i < buf.Length && !(tailPos <= i < tailPos + NODE_HEAD) ==> buf[i] == old(buf[i])
    {
      var nodeLen := NodeSize(len);
      var appendTail := tailPos + nodeLen;
      if headPos <= tailPos {
        if appendTail < buf.Length {
          return true, tailPos;
        } else if nodeLen < headPos {
          StoreEndFlag();
          return true, 0;
        } else {
          return false, 0;
        }
      } else {
        if appendTail < headPos {
          return true, tailPos;
        }
        return false, 0;
      }
    }

    /** Second half, without checks: the header, then the tail.  `good` says that the place was granted. */
    method CommitUnsafe(w: nat, len: nat, ghost good: bool, ghost m: Msg)
      requires w + NODE_HEAD + len <= buf.Length
      requires good ==> Valid() && Granted(State(), w, len) && len == |m| < U32 && DataAt(buf[..], w, m)
      modifies this`tailPos, this`layout, buf
      ensures good ==> Valid() && Contents() == old(Contents()) + [m] && tailPos > 0
    {
      ghost var r := State();
      StoreHeader(w, DATA_NODE, len);
      tailPos := RoundAlign(w + NODE_HEAD + len, ALIGN);
      if good {
        assert len == |m|;
        assert State() ==
               Ring(Splice(r.mem, w, Header(DATA_NODE, |m|)), r.head, RoundAlign(w + NODE_HEAD + |m|, ALIGN));
        CommitOk(r, layout, w, m, State());
        layout := Pushed(r, layout, w, m);
      }
    }

    method CopyIn(at: nat, data: Msg)
      requires at + |data| <= buf.Length
      modifies buf
      ensures buf[..] == Splice(old(buf[..]), at, data)
    {
      for j := 0 to |data|
        invariant buf[..] == Splice(old(buf[..]), at, data[..j])
      {
        buf[at + j] := data[j];
      }
      assert data[..|data|] == data;
    }

    /** The checks of PushCommit. */
    method CheckPush(w: nat, len: nat) returns (ok: bool)
      requires Valid()
      ensures Granted(State(), w, len) ==> ok
      ensures ok ==> w + NODE_HEAD + len <= buf.Length
      ensures w == tailPos ==> (ok <==> RoomAt(State(), w, len))
      ensures w == 0 != tailPos ==> (ok <==> EndTagged() && (8 + len + 63) / 64 * 64 < headPos)
      ensures w != tailPos && w != 0 ==> !ok
    {
      var writeLen := NodeSize(len);
      if w == tailPos {
        if w + writeLen >= (if headPos <= tailPos then buf.Length else headPos) {
          return false;
        }
      } else if w == 0 {
        if Granted(State(), w, len) { FieldsOfEnd(buf[..], tailPos); }
        if buf[tailPos] != 0xec || buf[tailPos + 1] != 0x9c || buf[tailPos + 2] != END_NODE {
          return false;
        }
        if writeLen >= headPos {
          return false;
        }
      } else {
        return false;
      }
      ok := true;
    }

    /**
     * Second half of a push.  Every descriptor of a prepared push is accepted, and the bytes in its
     * buffer become the last message; a refusal changes nothing.
     */
    method PushCommit(w: nat, len: nat) returns (ok: bool)
      requires Valid() && len < U32
      modifies this`tailPos, this`layout, buf
      ensures old(Granted(State(), w, len)) ==>
                && ok && Valid() && tailPos > 0 && w + NODE_HEAD + len <= buf.Length
                && Contents() == old(Contents()) + [old(buf[..])[w + NODE_HEAD..w + NODE_HEAD + len]]
      ensures !ok ==> buf[..] == old(buf[..]) && tailPos == old(tailPos) && layout == old(layout)
      ensures w == old(tailPos) ==> (ok <==> old(RoomAt(State(), w, len)))
      ensures w != old(tailPos) && w != 0 ==> !ok
      ensures w == 0 != old(tailPos) ==> (ok <==> old(EndTagged()) && (8 + len + 63) / 64 * 64 < headPos)
    {
      ok := CheckPush(w, len);
      if !ok {
        return;
      }
      ghost var m := buf[w + NODE_HEAD..w + NODE_HEAD + len];
      CommitUnsafe(w, len, Granted(State(), w, len), m);
    }

    /** Data is written into a granted buffer. */
    method Fill(w: nat, data: Msg)
      requires Valid() && Granted(State(), w, |data|)
      modifies buf
      ensures Valid() && Granted(State(), w, |data|) && DataAt(buf[..], w, data)
    {
      ghost var r := State();
      RoomUnused(r, layout, w, |data|);
      CopyIn(w + NODE_HEAD, data);
      DataStored(r, layout, w, data, State());
    }

    /** Appends a message if there is room. */
    method Push(data: Msg) returns (ok: bool)
      requires Valid() && |data| < U32
      modifies this`tailPos, this`layout, buf
      ensures Valid()
      ensures var n := (8 + |data| + 63) / 64 * 64;
              ok <==> if old(headPos) <= old(tailPos) then old(tailPos) + n < buf.Length || n < old(headPos)
                      else old(tailPos) + n < old(headPos)
      ensures Contents() == if ok then old(Contents()) + [data] else old(Contents())
      ensures ok ==> tailPos > 0
    {
      var w;
      ok, w := PushPrepare(|data|);
      if !ok {
        return;
      }
      Fill(w, data);
      CommitUnsafe(w, |data|, true, data);
    }

    /** The descriptor of a prepared pop: the first message. */
    ghost predicate Shown(p: nat, len: nat)
      reads this, buf
    {
      Contents() != [] && p == Front(layout, headPos) && len == |Contents()[0]| && DataAt(buf[..], p, Contents()[0])
    }

    /** First half of a pop: the place of the first message.  None of the integrity checks fails. */
    method PopPrepare() returns (ok: bool, p: nat, len: nat)
      requires Valid()
      ensures ok <==> Contents() != []
      ensures ok ==> Shown(p, len) && p + NODE_HEAD + len <= buf.Length
    {
      EmptyIff(State(), layout);
      if headPos == tailPos {
        return false, 0, 0;
      }
      FrontLoads(State(), layout);
      p := FrontNode();
      len := FrontLen(p);
      ok := true;
    }

    /** The length of the first message; it does not reach beyond the tail or the end of the buffer. */
    method FrontLen(p: nat) returns (len: nat)
      requires FrontSeen(State(), layout) && p == Front(layout, headPos)
      ensures Shown(p, len) && p + NODE_HEAD + len <= buf.Length
    {
      FrontFits(State(), layout);
      len := LenField(p);
      if p + NodeSize(len) > (if p <= tailPos then tailPos else buf.Length - ALIGN) {
        assert false;
      }
    }

    /** The node at the head or, behind an end flag, the one at the start of the buffer. */
    method FrontNode() returns (p: nat)
      requires FrontSeen(State(), layout)
      ensures p == Front(layout, headPos)
    {
      p := headPos;
      if buf[p] != 0xec || buf[p + 1] != 0x9c {
        assert false;
      }
      if buf[p + 2] == END_NODE {
        if tailPos == 0 {
          assert false;
        }
        p := 0;
        if buf[p] != 0xec || buf[p + 1] != 0x9c {
          assert false;
        }
      }
      if buf[p + 2] != DATA_NODE {
        assert false;
      }
    }

    function LenField(p: nat): (len: nat)
      requires p + NODE_HEAD <= buf.Length
      reads buf
      ensures len == Val(buf[..][p + 4..p + 8])
    {
      assert buf[p + 4..p + 8] == buf[..][p + 4..p + 8];
      Val(buf[p + 4..p + 8])
    }

    method PopCommitUnsafe(p: nat, len: nat)
      requires Valid() && Shown(p, len)
      modifies this`headPos, this`layout
      ensures Valid() && Contents() == old(Contents())[1..]
      ensures forall w, n :: old(Granted(State(), w, n)) ==> Granted(State(), w, n)
    {
      ghost var r := State();
      GrantedAfterPop(r, layout);
      headPos := RoundAlign(p + NODE_HEAD + len, ALIGN);
      HeadStore(r, layout, p, len, State());
      layout := Popped(r, layout);
    }

    /** The checks of PopCommit, none of which fails. */
    method CheckPop(p: nat, len: nat)
      requires FrontSeen(State(), layout) && p == Front(layout, headPos) && len == |Contents()[0]|
    {
      if headPos == tailPos {
        assert false;
      }
      if p == headPos {
        if len != LenField(p) {
          assert false;
        }
      } else if p == 0 {
        if buf[headPos] != 0xec || buf[headPos + 1] != 0x9c || buf[headPos + 2] != END_NODE {
          assert false;
        }
        if len != LenField(p) {
          assert false;
        }
      } else {
        assert false;
      }
    }

    /** Second half of a pop: the descriptor of a prepared pop is accepted; prepared pushes remain good. */
    method PopCommit(p: nat, len: nat) returns (ok: bool)
      requires Valid() && Shown(p, len)
      modifies this`headPos, this`layout
      ensures ok && Valid() && Contents() == old(Contents())[1..]
      ensures forall w, n :: old(Granted(State(), w, n)) ==> Granted(State(), w, n)
    {
      FrontLoads(State(), layout);
      CheckPop(p, len);
      PopCommitUnsafe(p, len);
      ok := true;
    }

    /** Removes the first message into a buffer of `space` bytes; refused if there is none or it does not fit. */
    method Pop(space: nat) returns (ok: bool, data: Msg)
      requires Valid()
      modifies this`headPos, this`layout
      ensures Valid()
      ensures ok <==> old(Contents()) != [] && |old(Contents())[0]| <= space
      ensures ok ==> data == old(Contents())[0] && Contents() == old(Contents())[1..]
      ensures !ok ==> headPos == old(headPos) && layout == old(layout)
    {
      var p, len;
      data := [];
      ok, p, len := PopPrepare();
      if !ok {
        return;
      }
      if space < len {
        return false, data;
      }
      data := buf[p + NODE_HEAD..p + NODE_HEAD + len];
      PopCommitUnsafe(p, len);
    }
  }
}
