/** kernel/virtio_disk.c: the descriptor table and the two rings that driver and device share, as
    section 2.6 of VIRTIO 1.1 lays them out, and what holds between any two steps of either side. */
module VirtioRing {
  const NUM := 8
  const WRAP16 := 65536
  const NEXT := 1    // VRING_DESC_F_NEXT
  const WRITE := 2   // VRING_DESC_F_WRITE

  /** What a descriptor's address points to. */
  datatype Target = Nothing | Op(i: nat) | Data(b: nat) | Status(i: nat)

  datatype Desc = Desc(addr: Target, len: nat, flags: nat, next: nat)

  /** struct virtio_blk_req */
  datatype BlkReq = BlkReq(write: bool, sector: nat)

  const NO_DESC := Desc(Nothing, 0, 0, 0)

  /** How far a request has come: in the available ring; read by the device; in the used ring; seen by
      virtio_disk_intr; its chain freed. */
  datatype Stage = Posted | Taken | Used | Handled | Finished

  /** A request: its buffer and operation, its three descriptors, its place in the used ring, and the
      status the device gave it (0 for success). */
  datatype Req = Req(b: nat, op: BlkReq, i0: nat, i1: nat, i2: nat, stage: Stage, slot: nat, result: nat)

  /** struct disk, the buffers' disk flags, and the history: every request made so far, the descriptors'
      owners, how many available entries the device has read, the requests in the order in which the
      device finished them, and how many of those the driver has seen. */
  datatype Ring = Ring(
    desc: seq<Desc>, free: seq<bool>, ops: seq<BlkReq>, infoB: seq<int>, status: seq<nat>, busy: map<nat, bool>,
    avail: seq<nat>, availIdx: nat, used: seq<nat>, usedIdx: nat, seen: nat,
    reqs: seq<Req>, owner: seq<int>, taken: nat, done: seq<nat>, handled: nat)

  predicate Live(v: Ring, r: nat)
  {
    r < |v.reqs| && v.reqs[r].stage != Finished
  }

  /** The chain that section 5.2.6 of VIRTIO 1.1 asks for: request header, data, status byte. */
  predicate Formatted(v: Ring, q: Req)
  {
    && q.i0 < NUM && q.i1 < NUM && q.i2 < NUM && |v.desc| == |v.ops| == |v.infoB| == NUM
    && v.desc[q.i0] == Desc(Op(q.i0), 16, NEXT, q.i1)
    && v.desc[q.i1] == Desc(Data(q.b), 1024, (if q.op.write then 0 else WRITE) + NEXT, q.i2)
    && v.desc[q.i2] == Desc(Status(q.i0), 1, WRITE, 0)
    && v.ops[q.i0] == q.op && v.infoB[q.i0] == q.b
  }

  /** free_chain's way through a chain. */
  predicate Linked(desc: seq<Desc>, q: Req)
    requires |desc| == NUM
  {
    && q.i0 < NUM && q.i1 < NUM && q.i2 < NUM
    && desc[q.i0].flags % 2 == NEXT && desc[q.i0].next == q.i1
    && desc[q.i1].flags % 2 == NEXT && desc[q.i1].next == q.i2 && desc[q.i2].flags % 2 != NEXT
  }

  predicate Owns(v: Ring, r: nat)
    requires r < |v.reqs|
  {
    var q := v.reqs[r];
    && q.i0 != q.i1 && q.i0 != q.i2 && q.i1 != q.i2
    && q.i0 < |v.owner| && q.i1 < |v.owner| && q.i2 < |v.owner|
    && v.owner[q.i0] == r && v.owner[q.i1] == r && v.owner[q.i2] == r
  }

  /** The device still works on the request's buffer exactly while its flag is up. */
  predicate FlagOk(v: Ring, r: nat)
    requires r < |v.reqs|
  {
    v.reqs[r].b in v.busy && v.busy[v.reqs[r].b] == (v.reqs[r].stage != Handled)
  }

  predicate StatusOk(v: Ring, r: nat)
    requires r < |v.reqs|
  {
    && v.reqs[r].i0 < |v.status|
    && (v.reqs[r].stage == Used || v.reqs[r].stage == Handled ==> v.status[v.reqs[r].i0] == v.reqs[r].result)
  }

  predicate Done(q: Req)
  {
    q.stage == Used || q.stage == Handled || q.stage == Finished
  }

  /** Where the request is in the rings. */
  predicate PlaceOk(v: Ring, r: nat)
    requires r < |v.reqs|
  {
    var q := v.reqs[r];
    && (q.stage == Posted <==> r >= v.taken)
    && (Done(q) ==> q.slot < |v.done| && v.done[q.slot] == r && (q.stage == Used <==> q.slot >= v.handled))
    && (r >= v.taken ==> |v.avail| == NUM && v.avail[r % NUM] == q.i0)
  }

  predicate ReqOk(v: Ring, r: nat)
    requires r < |v.reqs|
  {
    && PlaceOk(v, r)
    && (v.reqs[r].stage == Handled || v.reqs[r].stage == Finished ==> v.reqs[r].result == 0)
    && (Live(v, r) ==> Formatted(v, v.reqs[r]) && Owns(v, r) && FlagOk(v, r) && StatusOk(v, r))
  }

  /** The requests in the used ring that the driver has not seen. */
  predicate DoneOk(v: Ring, k: nat)
    requires k < |v.done|
  {
    && v.done[k] < |v.reqs| && v.reqs[v.done[k]].slot == k
    && Done(v.reqs[v.done[k]])
    && (k >= v.handled ==> |v.used| == NUM && v.used[k % NUM] == v.reqs[v.done[k]].i0)
  }

  /** A descriptor is free and blank, or one of the three of a live request. */
  predicate DescOk(v: Ring, i: nat)
    requires i < NUM == |v.desc| == |v.free| == |v.owner|
  {
    if v.free[i] then v.owner[i] == -1 && v.desc[i] == NO_DESC
    else
      && 0 <= v.owner[i] && Live(v, v.owner[i])
      && var q := v.reqs[v.owner[i]]; i == q.i0 || i == q.i1 || i == q.i2
  }

  predicate Counters(v: Ring)
  {
    && |v.desc| == |v.free| == |v.ops| == |v.infoB| == |v.status| == |v.avail| == |v.used| == |v.owner| == NUM
    && v.taken <= |v.reqs| && v.handled <= |v.done|
    && v.availIdx == |v.reqs| % WRAP16 && v.usedIdx == |v.done| % WRAP16 && v.seen == v.handled % WRAP16
  }

  predicate BufsApart(v: Ring)
  {
    forall r: nat, r': nat | r < r' < |v.reqs| && Live(v, r) && Live(v, r') :: v.reqs[r].b != v.reqs[r'].b
  }

  predicate Inv(v: Ring)
  {
    && Counters(v) && BufsApart(v)
    && (forall r: nat | r < |v.reqs| :: ReqOk(v, r))
    && (forall k: nat | k < |v.done| :: DoneOk(v, k))
    && (forall i: nat | i < NUM :: DescOk(v, i))
  }

  // ---- At most two requests at a time ----

  /** Three live requests would need nine of the eight descriptors. */
  lemma AtMostTwo(v: Ring, a: nat, b: nat, c: nat)
    requires Inv(v) && a < b < c && c < |v.reqs|
    ensures !(Live(v, a) && Live(v, b) && Live(v, c))
  {
    hide BufsApart, DoneOk, DescOk, PlaceOk, Formatted, FlagOk, StatusOk;
    if Live(v, a) && Live(v, b) && Live(v, c) {
      assert ReqOk(v, a) && ReqOk(v, b) && ReqOk(v, c);
      NineDistinct(v, a, b, c);
    }
  }

  lemma NineDistinct(v: Ring, a: nat, b: nat, c: nat)
    requires |v.owner| == NUM && a < b < c && c < |v.reqs|
    ensures !(Owns(v, a) && Owns(v, b) && Owns(v, c))
  {
    hide Chain, Owns;
    if Owns(v, a) && Owns(v, b) && Owns(v, c) {
      ThreeLong(v, a);
      ThreeLong(v, b);
      ThreeLong(v, c);
      ChainsApart(v, a, b);
      ChainsApart(v, a, c);
      ChainsApart(v, b, c);
      BelowBound(Chain(v.reqs[a]) + Chain(v.reqs[b]) + Chain(v.reqs[c]), NUM);
    }
  }

  lemma ChainsApart(v: Ring, a: nat, b: nat)
    requires a != b && a < |v.reqs| && b < |v.reqs| && Owns(v, a) && Owns(v, b)
    ensures Chain(v.reqs[a]) !! Chain(v.reqs[b])
  {
  }

  function Chain(q: Req): set<nat>
  {
    {q.i0, q.i1, q.i2}
  }

  lemma ThreeLong(v: Ring, r: nat)
    requires r < |v.reqs| && Owns(v, r)
    ensures |Chain(v.reqs[r])| == 3 && forall i | i in Chain(v.reqs[r]) :: i < |v.owner|
  {
  }

  lemma {:induction false} BelowBound(s: set<nat>, n: nat)
    requires forall x | x in s :: x < n
    ensures |s| <= n
  {
    if n > 0 {
      BelowBound(s - {n - 1}, n - 1);
    } else {
      assert s == {};
    }
  }

  /** So neither ring ever holds more than two unread entries. */
  lemma RingsHaveRoom(v: Ring)
    requires Inv(v)
    ensures |v.reqs| - v.taken <= 2 && |v.done| - v.handled <= 2
  {
    hide BufsApart, DescOk, Formatted, FlagOk, StatusOk, Owns;
    if |v.reqs| - v.taken > 2 {
      var r := v.taken;
      assert ReqOk(v, r) && ReqOk(v, r + 1) && ReqOk(v, r + 2);
      AtMostTwo(v, r, r + 1, r + 2);
    }
    if |v.done| - v.handled > 2 {
      var k := v.handled;
      assert DoneOk(v, k) && DoneOk(v, k + 1) && DoneOk(v, k + 2);
      assert ReqOk(v, v.done[k]) && ReqOk(v, v.done[k + 1]) && ReqOk(v, v.done[k + 2]);
      ThreeUsed(v, v.done[k], v.done[k + 1], v.done[k + 2]);
    }
  }

  /** Three different requests in any order. */
  lemma ThreeUsed(v: Ring, a: nat, b: nat, c: nat)
    requires Inv(v) && a < |v.reqs| && b < |v.reqs| && c < |v.reqs| && a != b && a != c && b != c
    ensures v.reqs[a].stage == Finished || v.reqs[b].stage == Finished || v.reqs[c].stage == Finished
  {
    hide Inv;
    if a < b {
      if b < c { AtMostTwo(v, a, b, c); } else if a < c { AtMostTwo(v, a, c, b); } else { AtMostTwo(v, c, a, b); }
    } else {
      if a < c { AtMostTwo(v, b, a, c); } else if b < c { AtMostTwo(v, b, c, a); } else { AtMostTwo(v, c, b, a); }
    }
  }

  /** The interrupt handler's loop test, in 16 bits, tells whether there is an unseen entry. */
  lemma SeenTest(v: Ring)
    requires Inv(v)
    ensures v.seen == v.usedIdx <==> v.handled == |v.done|
  {
    hide BufsApart, ReqOk, DoneOk, DescOk;
    RingsHaveRoom(v);
    var a, b := v.handled / WRAP16, |v.done| / WRAP16;
    assert v.handled == a * WRAP16 + v.handled % WRAP16 && |v.done| == b * WRAP16 + |v.done| % WRAP16;
  }

  /** The device's own test for an unread available entry. */
  lemma TakeTest(v: Ring)
    requires Inv(v)
    ensures v.availIdx == v.taken % WRAP16 <==> v.taken == |v.reqs|
  {
    hide BufsApart, ReqOk, DoneOk, DescOk;
    RingsHaveRoom(v);
    var a, b := v.taken / WRAP16, |v.reqs| / WRAP16;
    assert v.taken == a * WRAP16 + v.taken % WRAP16 && |v.reqs| == b * WRAP16 + |v.reqs| % WRAP16;
  }

  /** A 16-bit index finds the same ring slot as the full count. */
  lemma SlotOf(k: nat)
    ensures (k % WRAP16) % NUM == k % NUM
  {
    var q := k / WRAP16;
    assert k == q * WRAP16 + k % WRAP16;
    assert k == k % WRAP16 + (q * 8192) * NUM;
  }

  lemma SlotsApart(j: nat, k: nat)
    requires j < k < j + NUM
    ensures j % NUM != k % NUM
  {
  }

  // ---- The steps ----

  /** virtio_disk_rw with descriptors i0, i1, i2, up to the notification. */
  function Submitted(v: Ring, b: nat, op: BlkReq, i0: nat, i1: nat, i2: nat): Ring
    requires Counters(v) && i0 < NUM && i1 < NUM && i2 < NUM
  {
    var r := |v.reqs|;
    v.(desc := v.desc[i0 := Desc(Op(i0), 16, NEXT, i1)]
                     [i1 := Desc(Data(b), 1024, (if op.write then 0 else WRITE) + NEXT, i2)]
                     [i2 := Desc(Status(i0), 1, WRITE, 0)],
       free := v.free[i0 := false][i1 := false][i2 := false],
       ops := v.ops[i0 := op], infoB := v.infoB[i0 := b], status := v.status[i0 := 0xff], busy := v.busy[b := true],
       avail := v.avail[v.availIdx % NUM := i0], availIdx := (v.availIdx + 1) % WRAP16,
       reqs := v.reqs + [Req(b, op, i0, i1, i2, Posted, 0, 0xff)], owner := v.owner[i0 := r][i1 := r][i2 := r])
  }

  predicate MaySubmit(v: Ring, b: nat, i0: nat, i1: nat, i2: nat)
  {
    && Counters(v) && i0 < NUM && i1 < NUM && i2 < NUM && i0 != i1 && i0 != i2 && i1 != i2
    && v.free[i0] && v.free[i1] && v.free[i2]
    // the caller holds the buffer's sleep lock, so no other request is using it
    && (forall r: nat | r < |v.reqs| && Live(v, r) :: v.reqs[r].b != b)
  }

  lemma MaySubmitSizes(v: Ring, b: nat, i0: nat, i1: nat, i2: nat)
    requires MaySubmit(v, b, i0, i1, i2)
    ensures Counters(v) && i0 < NUM && i1 < NUM && i2 < NUM
  {
  }

  lemma NewReq(v: Ring, b: nat, op: BlkReq, i0: nat, i1: nat, i2: nat)
    requires Inv(v) && MaySubmit(v, b, i0, i1, i2)
    ensures ReqOk(Submitted(v, b, op, i0, i1, i2), |v.reqs|)
  {
    hide BufsApart, DoneOk, DescOk;
    SlotOf(|v.reqs|);
  }

  /** No live request uses a free descriptor. */
  lemma FreeApart(v: Ring, r: nat, i: nat)
    requires Inv(v) && r < |v.reqs| && Live(v, r) && i < NUM && v.free[i]
    ensures i !in Chain(v.reqs[r])
  {
    hide BufsApart, DoneOk, PlaceOk, Formatted, FlagOk, StatusOk;
    assert ReqOk(v, r) && DescOk(v, i);
  }

  lemma OldPlace(v: Ring, b: nat, op: BlkReq, i0: nat, i1: nat, i2: nat, r: nat)
    requires Inv(v) && MaySubmit(v, b, i0, i1, i2) && r < |v.reqs|
    ensures PlaceOk(Submitted(v, b, op, i0, i1, i2), r)
  {
    hide BufsApart, DoneOk, DescOk, Formatted, Owns, FlagOk, StatusOk;
    SlotOf(|v.reqs|);
    assert ReqOk(v, r);
    if r >= v.taken {
      RingsHaveRoom(v);
      SlotsApart(r, |v.reqs|);
    }
  }

  lemma OldReq(v: Ring, b: nat, op: BlkReq, i0: nat, i1: nat, i2: nat, r: nat)
    requires Inv(v) && MaySubmit(v, b, i0, i1, i2) && r < |v.reqs|
    ensures ReqOk(Submitted(v, b, op, i0, i1, i2), r)
  {
    hide BufsApart, DoneOk, DescOk, PlaceOk;
    OldPlace(v, b, op, i0, i1, i2, r);
    assert ReqOk(v, r);
    if Live(v, r) {
      FreeApart(v, r, i0);
      FreeApart(v, r, i1);
      FreeApart(v, r, i2);
    }
  }

  lemma SubmitKeeps(v: Ring, b: nat, op: BlkReq, i0: nat, i1: nat, i2: nat)
    requires Inv(v) && MaySubmit(v, b, i0, i1, i2)
    ensures Inv(Submitted(v, b, op, i0, i1, i2))
  {
    hide ReqOk;
    var w := Submitted(v, b, op, i0, i1, i2);
    forall r: nat | r < |w.reqs|
      ensures ReqOk(w, r)
    {
      if r < |v.reqs| {
        OldReq(v, b, op, i0, i1, i2, r);
      } else {
        NewReq(v, b, op, i0, i1, i2);
      }
    }
    forall k: nat | k < |w.done|
      ensures DoneOk(w, k)
    {
      assert DoneOk(v, k);
    }
    forall i: nat | i < NUM
      ensures DescOk(w, i)
    {
      assert DescOk(v, i);
    }
  }

  /** The device reads the next entry of the available ring. */
  function DeviceTook(v: Ring): Ring
    requires v.taken < |v.reqs|
  {
    v.(taken := v.taken + 1, reqs := v.reqs[v.taken := v.reqs[v.taken].(stage := Taken)])
  }

  /** It finds there the oldest request it has not read yet. */
  lemma DeviceReadsNext(v: Ring)
    requires Inv(v) && v.taken < |v.reqs|
    ensures v.avail[v.taken % NUM] == v.reqs[v.taken].i0 && v.reqs[v.taken].stage == Posted
    ensures Formatted(v, v.reqs[v.taken])
  {
    assert ReqOk(v, v.taken);
  }

  /** The device has done request r with status `result`: status byte, used entry, index. */
  function DeviceDid(v: Ring, r: nat, result: nat): Ring
    requires Counters(v) && r < |v.reqs| && v.reqs[r].i0 < NUM
  {
    v.(status := v.status[v.reqs[r].i0 := result], used := v.used[v.usedIdx % NUM := v.reqs[r].i0],
       usedIdx := (v.usedIdx + 1) % WRAP16, done := v.done + [r],
       reqs := v.reqs[r := v.reqs[r].(stage := Used, slot := |v.done|, result := result)])
  }

  /** virtio_disk_intr has a used entry to look at, and its status is not the panic. */
  predicate MaySee(v: Ring)
  {
    v.handled < |v.done| && v.done[v.handled] < |v.reqs| && v.reqs[v.done[v.handled]].result == 0
  }

  /** One turn of virtio_disk_intr's loop. */
  function Seen(v: Ring): Ring
    requires MaySee(v)
  {
    var r := v.done[v.handled];
    v.(busy := v.busy[v.reqs[r].b := false], seen := (v.seen + 1) % WRAP16, handled := v.handled + 1,
       reqs := v.reqs[r := v.reqs[r].(stage := Handled)])
  }

  /** The end of virtio_disk_rw: request r's chain is freed. */
  function Ended(v: Ring, r: nat): Ring
    requires Counters(v) && r < |v.reqs| && v.reqs[r].i0 < NUM && v.reqs[r].i1 < NUM && v.reqs[r].i2 < NUM
  {
    var q := v.reqs[r];
    v.(infoB := v.infoB[q.i0 := -1], desc := v.desc[q.i0 := NO_DESC][q.i1 := NO_DESC][q.i2 := NO_DESC],
       free := v.free[q.i0 := true][q.i1 := true][q.i2 := true],
       owner := v.owner[q.i0 := -1][q.i1 := -1][q.i2 := -1], reqs := v.reqs[r := q.(stage := Finished)])
  }

  lemma TookReq(v: Ring, r: nat)
    requires Inv(v) && v.taken < |v.reqs| && r < |v.reqs|
    ensures ReqOk(DeviceTook(v), r)
  {
    hide BufsApart, DoneOk, DescOk;
    assert ReqOk(v, r) && ReqOk(v, v.taken);
  }

  lemma TookKeeps(v: Ring)
    requires Inv(v) && v.taken < |v.reqs|
    ensures Inv(DeviceTook(v))
  {
    hide ReqOk;
    DeviceReadsNext(v);
    var w := DeviceTook(v);
    forall r: nat | r < |w.reqs|
      ensures ReqOk(w, r)
    {
      TookReq(v, r);
    }
    forall k: nat | k < |w.done|
      ensures DoneOk(w, k)
    {
      assert DoneOk(v, k);
    }
    forall i: nat | i < NUM
      ensures DescOk(w, i)
    {
      assert DescOk(v, i);
    }
  }

  lemma DidReq(v: Ring, r: nat, result: nat, x: nat)
    requires Inv(v) && r < |v.reqs| && v.reqs[r].stage == Taken && x < |v.reqs| && v.reqs[r].i0 < NUM
    ensures ReqOk(DeviceDid(v, r, result), x)
  {
    hide BufsApart, DoneOk, DescOk;
    assert ReqOk(v, r) && ReqOk(v, x);
  }

  lemma DidDone(v: Ring, r: nat, result: nat, k: nat)
    requires Inv(v) && r < |v.reqs| && v.reqs[r].stage == Taken && v.reqs[r].i0 < NUM && k <= |v.done|
    ensures DoneOk(DeviceDid(v, r, result), k)
  {
    hide BufsApart, DescOk, Formatted, Owns, FlagOk, StatusOk;
    SlotOf(|v.done|);
    if k < |v.done| {
      assert DoneOk(v, k);
      if k >= v.handled {
        RingsHaveRoom(v);
        SlotsApart(k, |v.done|);
      }
    }
  }

  lemma DidKeeps(v: Ring, r: nat, result: nat)
    requires Inv(v) && r < |v.reqs| && v.reqs[r].stage == Taken && v.reqs[r].i0 < NUM
    ensures Inv(DeviceDid(v, r, result))
  {
    hide ReqOk, DoneOk;
    var w := DeviceDid(v, r, result);
    forall x: nat | x < |w.reqs|
      ensures ReqOk(w, x)
    {
      DidReq(v, r, result, x);
    }
    forall k: nat | k < |w.done|
      ensures DoneOk(w, k)
    {
      DidDone(v, r, result, k);
    }
    forall i: nat | i < NUM
      ensures DescOk(w, i)
    {
      assert DescOk(v, i);
    }
  }

  /** Every used entry names a request that is alive: its info slot still holds its buffer. */
  lemma UsedIsLive(v: Ring)
    requires Inv(v) && v.handled < |v.done|
    ensures var r := v.done[v.handled]; var id := v.used[v.handled % NUM];
            && r < |v.reqs| && v.reqs[r].stage == Used && id == v.reqs[r].i0 < NUM
            && v.infoB[id] == v.reqs[r].b && v.status[id] == v.reqs[r].result
            && v.reqs[r].b in v.busy && v.busy[v.reqs[r].b]
  {
    hide BufsApart, DescOk;
    assert DoneOk(v, v.handled);
    assert ReqOk(v, v.done[v.handled]);
  }

  lemma SeenReq(v: Ring, x: nat)
    requires Inv(v) && MaySee(v) && x < |v.reqs|
    ensures ReqOk(Seen(v), x)
  {
    hide DescOk;
    var r := v.done[v.handled];
    assert DoneOk(v, v.handled);
    assert ReqOk(v, r) && ReqOk(v, x);
    if x != r && Live(v, x) {
      assert v.reqs[x].b != v.reqs[r].b;
    }
  }

  lemma SeenKeeps(v: Ring)
    requires Inv(v) && MaySee(v)
    ensures Inv(Seen(v))
  {
    hide ReqOk;
    var w := Seen(v);
    assert DoneOk(v, v.handled);
    UsedIsLive(v);
    forall x: nat | x < |w.reqs|
      ensures ReqOk(w, x)
    {
      SeenReq(v, x);
    }
    forall k: nat | k < |w.done|
      ensures DoneOk(w, k)
    {
      assert DoneOk(v, k);
    }
    forall i: nat | i < NUM
      ensures DescOk(w, i)
    {
      assert DescOk(v, i);
    }
  }

  /** From `was` to `now`, the handler got through the first h used entries. */
  predicate HandledUpTo(was: seq<Req>, now: seq<Req>, h: nat)
  {
    && |now| == |was|
    && forall r: nat | r < |was| ::
         now[r] == if was[r].stage == Used && was[r].slot < h then was[r].(stage := Handled) else was[r]
  }

  lemma NoneHandled(v: Ring)
    requires Inv(v)
    ensures HandledUpTo(v.reqs, v.reqs, v.handled)
  {
    hide BufsApart, DescOk, DoneOk, Formatted, Owns, FlagOk, StatusOk;
    forall r: nat | r < |v.reqs|
      ensures !(v.reqs[r].stage == Used && v.reqs[r].slot < v.handled)
    {
      assert ReqOk(v, r);
    }
  }

  lemma OneMoreHandled(was: seq<Req>, v: Ring)
    requires Inv(v) && MaySee(v) && HandledUpTo(was, v.reqs, v.handled)
    ensures HandledUpTo(was, Seen(v).reqs, v.handled + 1)
  {
    hide BufsApart, DescOk, Formatted, Owns, FlagOk, StatusOk;
    var r := v.done[v.handled];
    assert DoneOk(v, v.handled) && ReqOk(v, r);
    forall x: nat | x < |was| && was[x].stage == Used && was[x].slot == v.handled
      ensures x == r
    {
      assert ReqOk(v, x);
    }
  }

  lemma Counts(v: Ring)
    requires Inv(v)
    ensures v.handled <= |v.done|
    ensures v.handled < |v.done| ==> v.done[v.handled] < |v.reqs|
  {
    hide BufsApart, DescOk, ReqOk;
    assert v.handled < |v.done| ==> DoneOk(v, v.handled);
  }

  lemma FailureWaits(was: seq<Req>, v: Ring)
    requires Inv(v) && HandledUpTo(was, v.reqs, v.handled)
    requires v.handled < |v.done| && v.done[v.handled] < |v.reqs| && v.reqs[v.done[v.handled]].result != 0
    ensures exists r: nat | r < |was| :: was[r].stage == Used && was[r].result != 0
  {
    hide BufsApart, DescOk, ReqOk;
    UsedIsLive(v);
    assert was[v.done[v.handled]].stage == Used;
  }

  /** Once every used entry is handled, none of them had a failure status. */
  lemma AllHandledSucceeded(was: Ring, v: Ring, r: nat)
    requires Inv(was) && Inv(v) && v.done == was.done && HandledUpTo(was.reqs, v.reqs, |v.done|) && r < |was.reqs|
    ensures was.reqs[r].stage == Used ==> was.reqs[r].result == 0
  {
    hide BufsApart, DescOk, DoneOk, Formatted, Owns, FlagOk, StatusOk;
    assert ReqOk(was, r) && ReqOk(v, r);
  }

  predicate MayEnd(v: Ring, r: nat)
  {
    && Counters(v) && r < |v.reqs| && v.reqs[r].stage == Handled
    && v.reqs[r].i0 < NUM && v.reqs[r].i1 < NUM && v.reqs[r].i2 < NUM
  }

  lemma EndedReq(v: Ring, r: nat, x: nat)
    requires Inv(v) && MayEnd(v, r) && x < |v.reqs|
    ensures ReqOk(Ended(v, r), x)
  {
    hide BufsApart, DoneOk, DescOk;
    assert ReqOk(v, r) && ReqOk(v, x);
  }

  lemma EndKeeps(v: Ring, r: nat)
    requires Inv(v) && MayEnd(v, r)
    ensures Inv(Ended(v, r))
  {
    hide ReqOk;
    var w := Ended(v, r);
    forall x: nat | x < |w.reqs|
      ensures ReqOk(w, x)
    {
      EndedReq(v, r, x);
    }
    forall k: nat | k < |w.done|
      ensures DoneOk(w, k)
    {
      assert DoneOk(v, k);
    }
    forall i: nat | i < NUM
      ensures DescOk(w, i)
    {
      assert DescOk(v, i);
    }
  }

  lemma Blank(v: Ring)
    requires Inv(v)
    ensures Counters(v) && forall i | 0 <= i < NUM && v.free[i] :: v.desc[i] == NO_DESC
  {
    hide ReqOk, DoneOk, BufsApart, Live;
    forall i | 0 <= i < NUM && v.free[i]
      ensures v.desc[i] == NO_DESC
    {
      assert DescOk(v, i);
    }
  }

  lemma ChainFacts(v: Ring, r: nat)
    requires Inv(v) && r < |v.reqs| && Live(v, r)
    ensures var q := v.reqs[r];
            && Counters(v) && Formatted(v, q) && Linked(v.desc, q) && q.i0 != q.i1 && q.i0 != q.i2 && q.i1 != q.i2
            && !v.free[q.i0] && !v.free[q.i1] && !v.free[q.i2]
  {
    hide DoneOk, BufsApart, PlaceOk, FlagOk, StatusOk;
    assert ReqOk(v, r);
    var q := v.reqs[r];
    assert DescOk(v, q.i0) && DescOk(v, q.i1) && DescOk(v, q.i2);
  }

  /** Free descriptors and the chains of live requests partition the table. */
  lemma Partition(v: Ring, i: nat)
    requires Inv(v) && i < NUM
    ensures v.free[i] <==> forall r: nat | r < |v.reqs| && Live(v, r) :: i !in Chain(v.reqs[r])
    ensures forall a: nat, b: nat | a < b < |v.reqs| && Live(v, a) && Live(v, b) ::
              i !in Chain(v.reqs[a]) || i !in Chain(v.reqs[b])
  {
    hide BufsApart, DoneOk, PlaceOk, Formatted, FlagOk, StatusOk;
    assert DescOk(v, i);
    forall r: nat | r < |v.reqs| && Live(v, r) && i in Chain(v.reqs[r])
      ensures v.owner[i] == r
    {
      assert ReqOk(v, r);
    }
  }

  // ---- Runs of driver and device ----

  datatype Label =
    | SubmitStep(b: nat, op: BlkReq, i0: nat, i1: nat, i2: nat) | TakeStep
    | FinishStep(r: nat, result: nat) | SeenStep | EndStep(r: nat)

  predicate Enabled(v: Ring, l: Label)
  {
    match l
    case SubmitStep(b, op, i0, i1, i2) => MaySubmit(v, b, i0, i1, i2)
    case TakeStep => v.taken < |v.reqs|
    case FinishStep(r, result) => Counters(v) && r < |v.reqs| && v.reqs[r].stage == Taken && v.reqs[r].i0 < NUM
    case SeenStep => MaySee(v)
    case EndStep(r) => MayEnd(v, r)
  }

  function Next(v: Ring, l: Label): Ring
    requires Enabled(v, l)
  {
    match l
    case SubmitStep(b, op, i0, i1, i2) => Submitted(v, b, op, i0, i1, i2)
    case TakeStep => DeviceTook(v)
    case FinishStep(r, result) => DeviceDid(v, r, result)
    case SeenStep => Seen(v)
    case EndStep(r) => Ended(v, r)
  }

  lemma StepKeeps(v: Ring, l: Label)
    requires Inv(v) && Enabled(v, l)
    ensures Inv(Next(v, l))
  {
    hide Inv, Submitted, DeviceTook, DeviceDid, Seen, Ended;
    match l
    case SubmitStep(b, op, i0, i1, i2) => SubmitKeeps(v, b, op, i0, i1, i2);
    case TakeStep => TookKeeps(v);
    case FinishStep(r, result) => DidKeeps(v, r, result);
    case SeenStep => SeenKeeps(v);
    case EndStep(r) => EndKeeps(v, r);
  }

  predicate Start(v: Ring)
  {
    && Counters(v) && v.reqs == [] && v.done == []
    && forall i: nat | i < NUM :: v.free[i] && v.owner[i] == -1 && v.desc[i] == NO_DESC
  }

  lemma StartInv(v: Ring)
    requires Start(v)
    ensures Inv(v)
  {
  }

  predicate IsRun(vs: seq<Ring>, ls: seq<Label>)
  {
    && |vs| == |ls| + 1 && Start(vs[0])
    && forall i | 0 <= i < |ls| :: Enabled(vs[i], ls[i]) && vs[i + 1] == Next(vs[i], ls[i])
  }

  lemma {:induction false} RunInv(vs: seq<Ring>, ls: seq<Label>, i: nat)
    requires IsRun(vs, ls) && i < |vs|
    ensures Inv(vs[i])
  {
    hide Inv, Enabled, Next, Start;
    if i == 0 {
      StartInv(vs[0]);
    } else {
      RunInv(vs, ls, i - 1);
      StepKeeps(vs[i - 1], ls[i - 1]);
    }
  }

  function Rank(s: Stage): nat
  {
    match s
    case Posted => 0
    case Taken => 1
    case Used => 2
    case Handled => 3
    case Finished => 4
  }

  lemma StepOnward(v: Ring, l: Label)
    requires Inv(v) && Enabled(v, l)
    ensures var w := Next(v, l);
            && v.done <= w.done && v.handled <= w.handled && (l.SeenStep? ==> w.handled == v.handled + 1)
            && |v.reqs| <= |w.reqs|
            && forall r: nat | r < |v.reqs| ::
                 w.reqs[r].b == v.reqs[r].b && Rank(v.reqs[r].stage) <= Rank(w.reqs[r].stage)
  {
    hide BufsApart, DescOk, ReqOk;
    if l.SeenStep? {
      UsedIsLive(v);
    } else if l.TakeStep? {
      DeviceReadsNext(v);
    }
  }

  lemma {:induction false} RunOnward(vs: seq<Ring>, ls: seq<Label>, i: nat, j: nat)
    requires IsRun(vs, ls) && i <= j < |vs|
    ensures vs[i].done <= vs[j].done && vs[i].handled <= vs[j].handled && |vs[i].reqs| <= |vs[j].reqs|
    ensures forall r: nat | r < |vs[i].reqs| ::
              vs[j].reqs[r].b == vs[i].reqs[r].b && Rank(vs[i].reqs[r].stage) <= Rank(vs[j].reqs[r].stage)
  {
    hide Inv, Enabled, Next, Start, Rank;
    if i < j {
      RunOnward(vs, ls, i, j - 1);
      RunInv(vs, ls, j - 1);
      StepOnward(vs[j - 1], ls[j - 1]);
    }
  }

  /** In every run, under any order of completions and however often the 16-bit indices wrap, the
      handler never completes the same request twice. */
  lemma CompletesOnce(vs: seq<Ring>, ls: seq<Label>, i: nat, j: nat)
    requires IsRun(vs, ls) && i < j < |ls| && ls[i].SeenStep? && ls[j].SeenStep?
    ensures vs[i].handled < |vs[i].done| && vs[j].handled < |vs[j].done|
    ensures vs[i].done[vs[i].handled] != vs[j].done[vs[j].handled]
  {
    hide BufsApart, DescOk, ReqOk, Next, Start;
    RunInv(vs, ls, i);
    RunInv(vs, ls, j);
    StepOnward(vs[i], ls[i]);
    RunOnward(vs, ls, i + 1, j);
    assert DoneOk(vs[j], vs[i].handled) && DoneOk(vs[j], vs[j].handled);
  }

  /** At step j the handler completes request r. */
  predicate CompletesAt(vs: seq<Ring>, ls: seq<Label>, j: nat, r: nat)
  {
    && j < |ls| && j < |vs| && ls[j].SeenStep?
    && vs[j].handled < |vs[j].done| && vs[j].done[vs[j].handled] == r
  }

  /** One step moves a request past the handler exactly when it is the handler's step for it. */
  lemma HandledByStep(v: Ring, l: Label, r: nat)
    requires Inv(v) && Enabled(v, l) && r < |Next(v, l).reqs|
    ensures Rank(Next(v, l).reqs[r].stage) >= 3 <==>
            || (r < |v.reqs| && Rank(v.reqs[r].stage) >= 3)
            || (l.SeenStep? && v.done[v.handled] == r)
  {
    hide BufsApart, DescOk, ReqOk;
    if l.SeenStep? {
      UsedIsLive(v);
    } else if l.TakeStep? {
      DeviceReadsNext(v);
    }
  }

  /** In every run, a request is past the handler exactly when some earlier handler step was its own. */
  lemma {:induction false} CompletedIff(vs: seq<Ring>, ls: seq<Label>, i: nat, r: nat)
    requires IsRun(vs, ls) && i < |vs| && r < |vs[i].reqs|
    ensures Rank(vs[i].reqs[r].stage) >= 3 <==> exists j: nat | j < i :: CompletesAt(vs, ls, j, r)
  {
    hide Inv, Next, Rank;
    if i > 0 {
      var k := i - 1;
      RunInv(vs, ls, k);
      HandledByStep(vs[k], ls[k], r);
      if r < |vs[k].reqs| {
        CompletedIff(vs, ls, k, r);
      } else {
        NotYetPosted(vs, ls, k, r);
      }
      assert CompletesAt(vs, ls, k, r) <==> ls[k].SeenStep? && vs[k].done[vs[k].handled] == r;
    }
  }

  lemma NotYetPosted(vs: seq<Ring>, ls: seq<Label>, i: nat, r: nat)
    requires IsRun(vs, ls) && i < |vs| && r >= |vs[i].reqs|
    ensures forall j: nat | j < i :: !CompletesAt(vs, ls, j, r)
  {
    hide Inv, Next, Rank;
    forall j: nat | j < i
      ensures !CompletesAt(vs, ls, j, r)
    {
      RunOnward(vs, ls, j, i);
    }
  }

  /** In every run, under any order of completions and however often the 16-bit indices wrap, a
      request that got past the handler was completed by exactly one handler step, and the device had
      reported success for it. */
  lemma CompletesExactlyOnce(vs: seq<Ring>, ls: seq<Label>, i: nat, r: nat) returns (j: nat)
    requires IsRun(vs, ls) && i < |vs| && r < |vs[i].reqs|
    requires vs[i].reqs[r].stage == Handled || vs[i].reqs[r].stage == Finished
    ensures j < i && CompletesAt(vs, ls, j, r)
    ensures forall k: nat | k < |ls| && CompletesAt(vs, ls, k, r) :: k == j
    ensures vs[i].reqs[r].result == 0
  {
    hide BufsApart, DoneOk, DescOk, PlaceOk, Formatted, Next, IsRun;
    RunInv(vs, ls, i);
    assert ReqOk(vs[i], r);
    CompletedIff(vs, ls, i, r);
    j :| j < i && CompletesAt(vs, ls, j, r);
    forall k: nat | k < |ls| && CompletesAt(vs, ls, k, r)
      ensures k == j
    {
      if k < j {
        CompletesOnce(vs, ls, k, j);
      } else if j < k {
        CompletesOnce(vs, ls, j, k);
      }
    }
  }
}
