/** kernel/virtio_disk.c: the driver's operations, each under vdisk_lock, and the device's two steps.
    Any sequence of these calls is a run of driver and device together. */
module VirtioDisk {
  import opened VirtioRing

  class Driver {
    var desc: seq<Desc>
    var free: seq<bool>
    var ops: seq<BlkReq>
    var infoB: seq<int>
    var status: seq<nat>
    var busy: map<nat, bool>
    var avail: seq<nat>
    var availIdx: nat
    var used: seq<nat>
    var usedIdx: nat
    var seen: nat
    ghost var reqs: seq<Req>
    ghost var owner: seq<int>
    var taken: nat
    ghost var done: seq<nat>
    ghost var handled: nat

    ghost function Img(): Ring
      reads this
    {
      Ring(desc, free, ops, infoB, status, busy, avail, availIdx, used, usedIdx,
           seen, reqs, owner, taken, done, handled)
    }

    constructor ()
      ensures Inv(Img()) && reqs == [] && done == []
    {
      desc := seq(NUM, _ => NO_DESC);
      free := seq(NUM, _ => true);
      ops := seq(NUM, _ => BlkReq(false, 0));
      infoB := seq(NUM, _ => -1);
      status := seq(NUM, _ => 0);
      busy := map[];
      avail, used := seq(NUM, _ => 0), seq(NUM, _ => 0);
      availIdx, usedIdx, seen := 0, 0, 0;
      reqs, owner, taken, done, handled := [], seq(NUM, _ => -1), 0, [], 0;
    }

    /** The lowest free descriptor, now marked used; -1 if there is none. */
    method AllocDesc() returns (i: int)
      requires |free| == NUM
      modifies this`free
      ensures i == -1 ==> free == old(free) && forall j | 0 <= j < NUM :: !free[j]
      ensures i != -1 ==>
                0 <= i < NUM && old(free[i]) && free == old(free)[i := false] && forall j | 0 <= j < i :: !old(free)[j]
    {
      i := 0;
      while i < NUM
        invariant 0 <= i <= NUM && free == old(free) && forall j | 0 <= j < i :: !free[j]
      {
        if free[i] {
          free := free[i := false];
          return;
        }
        i := i + 1;
      }
      i := -1;
    }

    /** free_desc, with its two panics. */
    method FreeDesc(i: nat) returns (panic: bool)
      requires |free| == |desc| == NUM
      modifies this`free, this`desc
      ensures panic <==> i >= NUM || old(free)[i]
      ensures panic ==> desc == old(desc) && free == old(free)
      ensures !panic ==> desc == old(desc)[i := NO_DESC] && free == old(free)[i := true]
    {
      if i >= NUM || free[i] {
        return true;
      }
      panic := false;
      desc := desc[i := NO_DESC];
      free := free[i := true];
    }

    /** Three free descriptors; or false, with nothing changed, when there are not three. */
    method Alloc3Desc() returns (ok: bool, idx: seq<nat>)
      requires |free| == |desc| == NUM && forall i | 0 <= i < NUM && free[i] :: desc[i] == NO_DESC
      modifies this`free, this`desc
      ensures desc == old(desc)
      ensures ok ==>
                && |idx| == 3 && idx[0] < NUM && idx[1] < NUM && idx[2] < NUM
                && idx[0] != idx[1] && idx[0] != idx[2] && idx[1] != idx[2]
                && old(free)[idx[0]] && old(free)[idx[1]] && old(free)[idx[2]]
                && free == old(free)[idx[0] := false][idx[1] := false][idx[2] := false]
      ensures !ok ==> free == old(free) && forall a, b, c | 0 <= a < b < c < NUM :: !free[a] || !free[b] || !free[c]
    {
      idx := [];
      ghost var was := free;
      while |idx| < 3
        invariant |idx| <= 3 && |free| == NUM && desc == old(desc)
        invariant forall k | 0 <= k < |idx| :: idx[k] < NUM && was[idx[k]]
        invariant forall j, k | 0 <= j < k < |idx| :: idx[j] != idx[k]
        invariant |idx| == 0 ==> free == was
        invariant |idx| == 1 ==> free == was[idx[0] := false]
        invariant |idx| == 2 ==> free == was[idx[0] := false][idx[1] := false]
        invariant |idx| == 3 ==> free == was[idx[0] := false][idx[1] := false][idx[2] := false]
      {
        var i := AllocDesc();
        if i < 0 {
          if |idx| > 0 { var p := FreeDesc(idx[0]); assert !p; }
          if |idx| > 1 { var p := FreeDesc(idx[1]); assert !p; }
          return false, [];
        }
        idx := idx + [i];
      }
      ok := true;
    }

    /** Follow the chain from descriptor i and free all of it. */
    method FreeChain(i: nat, ghost q: Req)
      requires |free| == |desc| == NUM && i == q.i0 && Linked(desc, q)
      requires q.i0 != q.i1 && q.i0 != q.i2 && q.i1 != q.i2 && !free[q.i0] && !free[q.i1] && !free[q.i2]
      modifies this`free, this`desc
      ensures desc == old(desc)[q.i0 := NO_DESC][q.i1 := NO_DESC][q.i2 := NO_DESC]
      ensures free == old(free)[q.i0 := true][q.i1 := true][q.i2 := true]
    {
      var n := i;
      ghost var left := 3;
      while true
        invariant 1 <= left <= 3 && |free| == |desc| == NUM
        invariant left == 3 ==> n == q.i0 && desc == old(desc) && free == old(free)
        invariant left == 2 ==> n == q.i1 && desc == old(desc)[q.i0 := NO_DESC] && free == old(free)[q.i0 := true]
        invariant left == 1 ==>
                    && n == q.i2 && desc == old(desc)[q.i0 := NO_DESC][q.i1 := NO_DESC]
                    && free == old(free)[q.i0 := true][q.i1 := true]
        decreases left
      {
        var flags, next := desc[n].flags, desc[n].next;
        var p := FreeDesc(n);
        assert !p;
        left := left - 1;
        if flags % 2 == NEXT {
          n := next;
        } else {
          break;
        }
      }
    }

    /** virtio_disk_rw up to its wait: post a request for block blockno of buffer b; false when the
        caller has to sleep until descriptors are freed. */
    method Submit(b: nat, write: bool, blockno: nat) returns (ok: bool, head: nat)
      requires Inv(Img()) && forall r: nat | r < |reqs| && Live(Img(), r) :: reqs[r].b != b
      modifies this`desc, this`free, this`ops, this`infoB, this`status, this`busy, this`avail, this`availIdx
      modifies this`reqs, this`owner
      ensures Inv(Img())
      ensures !ok ==> Img() == old(Img()) && forall a, b, c | 0 <= a < b < c < NUM :: !free[a] || !free[b] || !free[c]
      ensures ok ==>
                && |reqs| == |old(reqs)| + 1 && reqs[..|old(reqs)|] == old(reqs)
                && var q := reqs[|old(reqs)|];
                   q.b == b && q.op == BlkReq(write, blockno * 2) && q.i0 == head && q.stage == Posted
    {
      hide Inv;
      ghost var v := Img();
      Blank(v);
      var idx;
      ok, idx := Alloc3Desc();
      head := 0;
      if ok {
        head := idx[0];
        Post(b, BlkReq(write, blockno * 2), idx[0], idx[1], idx[2], v);
      }
    }

    /** Format the three descriptors and make them available. */
    method Post(b: nat, op: BlkReq, i0: nat, i1: nat, i2: nat, ghost v: Ring)
      requires Inv(v) && MaySubmit(v, b, i0, i1, i2)
      requires Img() == v.(free := v.free[i0 := false][i1 := false][i2 := false])
      modifies this`desc, this`ops, this`infoB, this`status, this`busy, this`avail, this`availIdx, this`reqs, this`owner
      ensures Inv(Img()) && Img() == Submitted(v, b, op, i0, i1, i2)
    {
      hide Inv, MaySubmit;
      SubmitKeeps(v, b, op, i0, i1, i2);
      MaySubmitSizes(v, b, i0, i1, i2);
      Format(b, op, i0, i1, i2);
      Publish(b, i0);
      owner := owner[i0 := |reqs|][i1 := |reqs|][i2 := |reqs|];
      reqs := reqs + [Req(b, op, i0, i1, i2, Posted, 0, 0xff)];
    }

    method Publish(b: nat, i0: nat)
      requires |infoB| == |avail| == NUM && i0 < NUM
      modifies this`busy, this`infoB, this`avail, this`availIdx
      ensures busy == old(busy)[b := true] && infoB == old(infoB)[i0 := b]
      ensures avail == old(avail)[old(availIdx) % NUM := i0] && availIdx == (old(availIdx) + 1) % WRAP16
    {
      busy := busy[b := true];
      infoB := infoB[i0 := b];
      avail := avail[availIdx % NUM := i0];
      availIdx := (availIdx + 1) % WRAP16;
    }

    method Format(b: nat, op: BlkReq, i0: nat, i1: nat, i2: nat)
      requires |desc| == |ops| == |status| == NUM && i0 < NUM && i1 < NUM && i2 < NUM
      modifies this`desc, this`ops, this`status
      ensures ops == old(ops)[i0 := op] && status == old(status)[i0 := 0xff]
      ensures desc == old(desc)[i0 := Desc(Op(i0), 16, NEXT, i1)]
                               [i1 := Desc(Data(b), 1024, (if op.write then 0 else WRITE) + NEXT, i2)]
                               [i2 := Desc(Status(i0), 1, WRITE, 0)]
    {
      ops := ops[i0 := op];
      desc := desc[i0 := Desc(Op(i0), 16, NEXT, i1)];
      desc := desc[i1 := Desc(Data(b), 1024, (if op.write then 0 else WRITE) + NEXT, i2)];
      status := status[i0 := 0xff];
      desc := desc[i2 := Desc(Status(i0), 1, WRITE, 0)];
    }

    /** virtio_disk_rw after its wait: request r's buffer is done, its chain is freed. */
    method Finish(head: nat, ghost r: nat)
      requires Inv(Img()) && r < |reqs| && reqs[r].stage == Handled && reqs[r].i0 == head
      modifies this`infoB, this`desc, this`free, this`owner, this`reqs
      ensures Inv(Img()) && MayEnd(old(Img()), r) && Img() == Ended(old(Img()), r)
    {
      hide Inv;
      ghost var v := Img();
      ghost var q := reqs[r];
      ChainFacts(v, r);
      EndKeeps(v, r);
      infoB := infoB[head := -1];
      FreeChain(head, q);
      owner, reqs := Ended(v, r).owner, Ended(v, r).reqs;
      assert Img() == Ended(v, r);
    }

    /** One turn of virtio_disk_intr's loop; `more` is false when there is nothing to see. The used
        entry belongs to exactly one request. If the device reported success for it, it goes from
        Used to Handled and never comes back here; if not, the handler panics. */
    method IntrStep() returns (more: bool, panic: bool)
      requires Inv(Img())
      modifies this`busy, this`seen, this`reqs, this`handled
      ensures Inv(Img()) && more == (old(handled) < |done|)
      ensures panic <==> more && done[old(handled)] < |old(reqs)| && old(reqs)[done[old(handled)]].result != 0
      ensures !more || panic ==> Img() == old(Img())
      ensures more && !panic ==>
                && handled == old(handled) + 1 && done[old(handled)] < |old(reqs)|
                && var r := done[old(handled)];
                   && old(reqs)[r].stage == Used && reqs == old(reqs)[r := old(reqs)[r].(stage := Handled)]
                   && busy == old(busy)[old(reqs)[r].b := false]
    {
      hide ReqOk, DoneOk, DescOk, BufsApart;
      ghost var v := Img();
      SeenTest(v);
      more, panic := seen != usedIdx, false;
      if more {
        SlotOf(handled);
        UsedIsLive(v);
        var id := used[seen % NUM];
        if status[id] != 0 {
          return true, true;
        }
        var b := infoB[id];
        SeenKeeps(v);
        busy := busy[b := false];
        seen := (seen + 1) % WRAP16;
        reqs := reqs[done[handled] := reqs[done[handled]].(stage := Handled)];
        handled := handled + 1;
        assert Img() == Seen(v);
      }
    }

    /** virtio_disk_intr: everything the device has finished gets handled, up to the first request
        for which it reported failure. */
    method Intr() returns (panic: bool)
      requires Inv(Img())
      modifies this`busy, this`seen, this`reqs, this`handled
      ensures Inv(Img()) && |reqs| == |old(reqs)|
      ensures panic <==> exists r: nat | r < |old(reqs)| :: old(reqs)[r].stage == Used && old(reqs)[r].result != 0
      ensures panic ==> handled < |done| && done[handled] < |reqs| && reqs[done[handled]].result != 0
      ensures !panic ==> handled == |done|
      ensures HandledUpTo(old(reqs), reqs, handled)
    {
      hide Inv, HandledUpTo;
      ghost var was := Img();
      NoneHandled(was);
      Counts(was);
      var more := true;
      panic := false;
      while more && !panic
        invariant Inv(Img()) && handled <= |done| && |reqs| == |old(reqs)|
        invariant !more ==> handled == |done| && !panic
        invariant panic ==> handled < |done| && done[handled] < |reqs| && reqs[done[handled]].result != 0
        invariant HandledUpTo(old(reqs), reqs, handled)
        decreases |done| - handled, more, !panic
      {
        ghost var v := Img();
        Counts(v);
        more, panic := IntrStep();
        if more && !panic {
          OneMoreHandled(old(reqs), v);
        }
      }
      if panic {
        FailureWaits(old(reqs), Img());
      } else {
        forall r: nat | r < |old(reqs)|
          ensures old(reqs)[r].stage == Used ==> old(reqs)[r].result == 0
        {
          AllHandledSucceeded(was, Img(), r);
        }
      }
    }

    /** The device reads one more available entry: always the head of the oldest request unread. */
    method DeviceTake() returns (ok: bool, head: nat)
      requires Inv(Img())
      modifies this`taken, this`reqs
      ensures Inv(Img()) && ok == (old(taken) < |old(reqs)|)
      ensures !ok ==> Img() == old(Img())
      ensures ok ==>
                && taken == old(taken) + 1 && head == old(reqs)[old(taken)].i0
                && reqs == old(reqs)[old(taken) := old(reqs)[old(taken)].(stage := Taken)]
    {
      hide ReqOk, DoneOk, DescOk, BufsApart;
      head := 0;
      ok := availIdx != taken % WRAP16;
      ghost var v := Img();
      TakeTest(v);
      if ok {
        SlotOf(taken);
        DeviceReadsNext(v);
        head := avail[(taken % WRAP16) % NUM];
        TookKeeps(v);
        reqs := reqs[taken := reqs[taken].(stage := Taken)];
        taken := taken + 1;
        assert Img() == DeviceTook(v);
      }
    }

    /** The device finishes any one of the requests it has read, with a status of its choice. */
    method DeviceFinish(head: nat, ghost r: nat, result: nat)
      requires Inv(Img()) && r < |reqs| && reqs[r].stage == Taken && reqs[r].i0 == head
      modifies this`status, this`used, this`usedIdx, this`reqs, this`done
      ensures Inv(Img()) && done == old(done) + [r]
      ensures reqs == old(reqs)[r := old(reqs)[r].(stage := Used, slot := |old(done)|, result := result)]
    {
      hide Inv;
      ghost var v := Img();
      ChainFacts(v, r);
      DidKeeps(v, r, result);
      status := status[head := result];
      used := used[usedIdx % NUM := head];
      usedIdx := (usedIdx + 1) % WRAP16;
      done := done + [r];
      reqs := reqs[r := reqs[r].(stage := Used, slot := |done| - 1, result := result)];
      assert Img() == DeviceDid(v, r, result);
    }
  }
}
