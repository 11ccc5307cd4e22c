/** The transmit buffers of src/kernel/network_manager/ethernet_device.rs: 128 buffers, each either in the pool or on
    the transmit list. The two locked regions of send_data and the completion worker are the atomic steps. */
module Ethernet {
  import opened Collections

  const NUMBER_OF_MEMORY_BUFFER: nat := 128
  const MAX_FRAME_SIZE: nat := 1530
  const MAX_FRAME_DATA_SIZE: nat := 1500
  const IDS: nat := 0x1_0000_0000

  type Buffer = nat

  datatype NetworkError = DataSizeError | InvalidDevice | OutOfBuffer

  datatype Result<T> = Ok(value: T) | Err(error: NetworkError)

  datatype TxEntry = TxEntry(id: nat, buffer: Buffer)

  function Buffers(tx: seq<TxEntry>): multiset<Buffer> {
    if tx == [] then multiset{} else Buffers(tx[..|tx| - 1]) + multiset{tx[|tx| - 1].buffer}
  }

  lemma {:induction false} BuffersDropped(tx: seq<TxEntry>, k: nat)
    requires k < |tx|
    ensures Buffers(tx) == Buffers(Dropped(tx, k)) + multiset{tx[k].buffer}
  {
    if k == |tx| - 1 {
      assert Dropped(tx, k) == tx[..|tx| - 1];
    } else {
      BuffersDropped(tx[..|tx| - 1], k);
      var w := Dropped(tx, k);
      assert w[..|w| - 1] == Dropped(tx[..|tx| - 1], k) && w[|w| - 1] == tx[|tx| - 1];
    }
  }

  /** Two MAC addresses and the frame type. */
  const HEADER_SIZE: nat := 14

  /** Frames of up to 1500 bytes of data, written into two different buffers, do not overlap, and all lie in the memory
      from `base` on. */
  ghost predicate Apart(all: multiset<Buffer>, base: nat) {
    && (forall b :: b in all ==> base <= b && b + HEADER_SIZE + 1500 <= base + NUMBER_OF_MEMORY_BUFFER * MAX_FRAME_SIZE)
    && (forall b, c :: b in all && c in all && b < c ==> b + HEADER_SIZE + 1500 <= c)
  }

  /** Every one of the 128 buffers is in the pool or on the list, once. */
  ghost predicate Stocked(pool: seq<Buffer>, tx: seq<TxEntry>, all: multiset<Buffer>) {
    (forall b :: all[b] <= 1) && |all| == NUMBER_OF_MEMORY_BUFFER && multiset(pool) + Buffers(tx) == all
  }

  lemma StockTake(pool: seq<Buffer>, tx: seq<TxEntry>, all: multiset<Buffer>, id: nat)
    requires Stocked(pool, tx, all) && pool != []
    ensures Stocked(pool[..|pool| - 1], tx + [TxEntry(id, pool[|pool| - 1])], all)
  {
    var e := TxEntry(id, pool[|pool| - 1]);
    assert pool == pool[..|pool| - 1] + [e.buffer];
    assert (tx + [e])[..|tx|] == tx;
  }

  lemma StockGive(pool: seq<Buffer>, tx: seq<TxEntry>, all: multiset<Buffer>, k: nat)
    requires Stocked(pool, tx, all) && k < |tx|
    ensures |pool| < NUMBER_OF_MEMORY_BUFFER && Stocked(pool + [tx[k].buffer], Dropped(tx, k), all)
  {
    hide Dropped;
    BuffersDropped(tx, k);
    assert |all| == |multiset(pool)| + |Buffers(tx)|;
  }

  // ---------------------------------------------------------------- ids and the sends they stand for

  /** `serials[i]` is the number of the send behind `tx[i]`; the id is its low 32 bits. */
  ghost predicate Numbered(tx: seq<TxEntry>, serials: seq<nat>, next: nat) {
    && |serials| == |tx|
    && (forall i :: 0 <= i < |tx| ==> serials[i] < next && tx[i].id == serials[i] % IDS)
    && (forall i, j :: 0 <= i < j < |tx| ==> serials[i] < serials[j])
  }

  /** Fewer than 2^32 sends happened since the given one. */
  predicate Recent(serial: nat, next: nat) { serial < next <= serial + IDS }

  /** Among recent sends the id tells which. */
  lemma IdTells(a: nat, b: nat, next: nat)
    requires Recent(a, next) && Recent(b, next) && a % IDS == b % IDS
    ensures a == b
  {
  }

  lemma NumberedSnoc(tx: seq<TxEntry>, serials: seq<nat>, next: nat, b: Buffer)
    requires Numbered(tx, serials, next)
    ensures Numbered(tx + [TxEntry(next % IDS, b)], serials + [next], next + 1)
  {
  }

  lemma NumberedDropped(tx: seq<TxEntry>, serials: seq<nat>, next: nat, k: nat)
    requires Numbered(tx, serials, next) && k < |tx|
    ensures Numbered(Dropped(tx, k), Dropped(serials, k), next)
  {
  }

  /** The position of an id in the list, or its length. */
  function Find(tx: seq<TxEntry>, id: nat, i: nat): (k: nat)
    requires i <= |tx|
    ensures i <= k <= |tx| && (k < |tx| ==> tx[k].id == id) && forall j :: i <= j < k ==> tx[j].id != id
    decreases |tx| - i
  {
    if i == |tx| || tx[i].id == id then i else Find(tx, id, i + 1)
  }

  class EthernetDeviceManager {
    const memoryBuffer: array<Buffer>
    var numberOfMemoryBuffer: nat
    var txList: seq<TxEntry>
    var nextId: nat
    const devices: nat
    ghost const all: multiset<Buffer>
    ghost var serials: seq<nat>
    ghost var sends: nat

    ghost predicate Valid()
      reads this, memoryBuffer
    {
      && memoryBuffer.Length == NUMBER_OF_MEMORY_BUFFER && numberOfMemoryBuffer <= NUMBER_OF_MEMORY_BUFFER
      && Stocked(memoryBuffer[..numberOfMemoryBuffer], txList, all)
      && Numbered(txList, serials, sends) && nextId == sends % IDS
    }

    ghost function Pool(): seq<Buffer>
      reads this, memoryBuffer
      requires numberOfMemoryBuffer <= memoryBuffer.Length
    {
      memoryBuffer[..numberOfMemoryBuffer]
    }

    /** new and init: the buffers are cut from one allocation, one frame apart. */
    constructor (base: nat, numberOfDevices: nat)
      ensures Valid() && txList == [] && sends == 0 && devices == numberOfDevices && fresh(memoryBuffer)
      ensures numberOfMemoryBuffer == NUMBER_OF_MEMORY_BUFFER && Apart(all, base)
    {
      hide Stocked, Cut, Apart;
      CutApart(base);
      var buffers := new Buffer[NUMBER_OF_MEMORY_BUFFER](_ => 0);
      CutBuffers(buffers, base);
      FullStock(buffers[..], base);
      memoryBuffer := buffers;
      numberOfMemoryBuffer, txList, nextId, devices := NUMBER_OF_MEMORY_BUFFER, [], 0, numberOfDevices;
      serials, sends := [], 0;
      all := Cut(base, NUMBER_OF_MEMORY_BUFFER);
      assert buffers[..NUMBER_OF_MEMORY_BUFFER] == buffers[..];
    }

    /** The first locked region of send_data: a buffer moves from the pool to the end of the list. */
    method BeginSend(device: nat, length: nat) returns (r: Result<TxEntry>)
      requires Valid()
      modifies this`numberOfMemoryBuffer, this`txList, this`nextId, this`serials, this`sends
      ensures Valid()
      ensures r == Err(DataSizeError) <==> length > MAX_FRAME_DATA_SIZE
      ensures r == Err(InvalidDevice) <==> length <= MAX_FRAME_DATA_SIZE && device >= devices
      ensures r == Err(OutOfBuffer) <==>
        length <= MAX_FRAME_DATA_SIZE && device < devices && old(numberOfMemoryBuffer) == 0
      ensures r.Err? ==> txList == old(txList) && numberOfMemoryBuffer == old(numberOfMemoryBuffer)
      ensures r.Err? ==> sends == old(sends) && serials == old(serials)
      ensures r.Ok? ==>
        && txList == old(txList) + [r.value] && serials == old(serials) + [old(sends)] && sends == old(sends) + 1
        && r.value.id == old(sends) % IDS && r.value.buffer in old(multiset(memoryBuffer[..numberOfMemoryBuffer]))
        && numberOfMemoryBuffer == old(numberOfMemoryBuffer) - 1
        && r.value.buffer == memoryBuffer[numberOfMemoryBuffer]
    {
      hide Stocked, Numbered;
      if length > MAX_FRAME_DATA_SIZE {
        return Err(DataSizeError);
      }
      if device >= devices {
        return Err(InvalidDevice);
      }
      if numberOfMemoryBuffer == 0 {
        return Err(OutOfBuffer);
      }
      ghost var pool := memoryBuffer[..numberOfMemoryBuffer];
      StockTake(pool, txList, all, nextId);
      NumberedSnoc(txList, serials, sends, pool[|pool| - 1]);
      numberOfMemoryBuffer := numberOfMemoryBuffer - 1;
      var entry := TxEntry(nextId, memoryBuffer[numberOfMemoryBuffer]);
      assert memoryBuffer[..numberOfMemoryBuffer] == pool[..|pool| - 1] && entry.buffer == pool[|pool| - 1];
      assert entry.buffer in pool;
      txList := txList + [entry];
      nextId := (nextId + 1) % IDS;
      serials := serials + [sends];
      sends := sends + 1;
      return Ok(entry);
    }

    /** The entry at `k` leaves the list and its buffer goes back to the pool. */
    method GiveBack(k: nat, buffer: Buffer)
      requires Valid() && k < |txList| && txList[k].buffer == buffer
      modifies this`numberOfMemoryBuffer, this`txList, this`serials, memoryBuffer
      ensures Valid() && txList == Dropped(old(txList), k) && serials == Dropped(old(serials), k)
      ensures numberOfMemoryBuffer == old(numberOfMemoryBuffer) + 1
      ensures Pool() == old(Pool()) + [buffer]
    {
      hide Dropped, Stocked, Numbered;
      ghost var pool := memoryBuffer[..numberOfMemoryBuffer];
      StockGive(pool, txList, all, k);
      SameLength(txList, serials, sends);
      NumberedDropped(txList, serials, sends, k);
      memoryBuffer[numberOfMemoryBuffer] := buffer;
      assert memoryBuffer[..numberOfMemoryBuffer + 1] == pool + [txList[k].buffer];
      numberOfMemoryBuffer := numberOfMemoryBuffer + 1;
      txList := Dropped(txList, k);
      serials := Dropped(serials, k);
    }

    /** The second locked region of send_data, after the driver failed: if the entry is still there, its own buffer
        goes back; if the completion came first, nothing happens. */
    method SendFailed(entry: TxEntry, ghost serial: nat) returns (found: bool)
      requires Valid() && entry.id == serial % IDS && Recent(serial, sends)
      requires forall i :: 0 <= i < |serials| ==>
        Recent(serials[i], sends) && (serials[i] == serial ==> txList[i] == entry)
      modifies this`numberOfMemoryBuffer, this`txList, this`serials, memoryBuffer
      ensures Valid() && found == (serial in old(serials))
      ensures found ==> multiset(Pool()) == old(multiset(Pool())) + multiset{entry.buffer}
      ensures serial !in serials && forall s :: s in serials <==> s in old(serials) && s != serial
      ensures !found ==> txList == old(txList) && numberOfMemoryBuffer == old(numberOfMemoryBuffer)
      ensures var k := Find(old(txList), entry.id, 0); found == (k < |old(txList)|) && (found ==>
        k < |old(serials)| && txList == Dropped(old(txList), k) && serials == Dropped(old(serials), k) &&
          Pool() == old(Pool()) + [entry.buffer])
      ensures !found ==> serials == old(serials) && Pool() == old(Pool())
    {
      var k := 0;
      while k < |txList|
        invariant k <= |txList| && forall j :: 0 <= j < k ==> txList[j].id != entry.id
        invariant Find(txList, entry.id, 0) == Find(txList, entry.id, k)
      {
        if txList[k].id == entry.id {
          IdTells(serials[k], serial, sends);
          BuffersDropped(txList, k);
          ghost var was := serials;
          ghost var pool, tx := multiset(memoryBuffer[..numberOfMemoryBuffer]), Buffers(txList);
          GiveBack(k, entry.buffer);
          PoolGrew(pool, multiset(memoryBuffer[..numberOfMemoryBuffer]), Buffers(txList), tx, entry.buffer);
          OneLess(was, k);
          return true;
        }
        k := k + 1;
      }
      return false;
    }

    /** update_transmit_status_worker: whatever id the driver reports, at most one entry completes. */
    method UpdateTransmitStatus(id: nat) returns (found: bool)
      requires Valid()
      modifies this`numberOfMemoryBuffer, this`txList, this`serials, memoryBuffer
      ensures Valid() && found == (Find(old(txList), id, 0) < |old(txList)|)
      ensures found ==> var k := Find(old(txList), id, 0);
        && k < |old(serials)| && txList == Dropped(old(txList), k) && serials == Dropped(old(serials), k)
        && Pool() == old(Pool()) + [old(txList)[k].buffer]
      ensures !found ==> txList == old(txList) && serials == old(serials) && Pool() == old(Pool())
    {
      hide Buffers;
      var k := 0;
      while k < |txList|
        invariant k <= |txList| && Find(txList, id, 0) == Find(txList, id, k)
      {
        if txList[k].id == id {
          GiveBack(k, txList[k].buffer);
          return true;
        }
        k := k + 1;
      }
      return false;
    }
  }

  function Cut(base: nat, n: nat): multiset<Buffer> {
    if n == 0 then multiset{} else Cut(base, n - 1) + multiset{base + (n - 1) * MAX_FRAME_SIZE}
  }

  /** The loop of init. */
  method CutBuffers(a: array<Buffer>, base: nat)
    requires a.Length == NUMBER_OF_MEMORY_BUFFER
    modifies a
    ensures multiset(a[..]) == Cut(base, NUMBER_OF_MEMORY_BUFFER)
  {
    hide Cut;
    CutNext(base, 0);
    var n := 0;
    while n < NUMBER_OF_MEMORY_BUFFER
      invariant n <= NUMBER_OF_MEMORY_BUFFER && multiset(a[..n]) == Cut(base, n)
    {
      ghost var pool := a[..n];
      CutNext(base, n);
      a[n] := base + n * MAX_FRAME_SIZE;
      assert a[..n + 1] == pool + [base + n * MAX_FRAME_SIZE];
      n := n + 1;
    }
    assert a[..n] == a[..];
  }

  lemma CutNext(base: nat, n: nat)
    ensures Cut(base, 0) == multiset{} && Cut(base, n + 1) == Cut(base, n) + multiset{base + n * MAX_FRAME_SIZE}
  {
  }

  lemma FullStock(pool: seq<Buffer>, base: nat)
    requires multiset(pool) == Cut(base, NUMBER_OF_MEMORY_BUFFER)
    ensures Stocked(pool, [], Cut(base, NUMBER_OF_MEMORY_BUFFER))
  {
    hide Cut;
    CutOnce(base, NUMBER_OF_MEMORY_BUFFER);
  }

  lemma {:induction false} CutOnce(base: nat, n: nat)
    ensures |Cut(base, n)| == n && (forall b :: Cut(base, n)[b] <= 1)
    ensures forall b :: b in Cut(base, n) ==> b < base + n * MAX_FRAME_SIZE
  {
    if n > 0 { CutOnce(base, n - 1); }
  }

  lemma {:induction false} CutAt(base: nat, n: nat, b: Buffer) returns (i: nat)
    requires b in Cut(base, n)
    ensures i < n && b == base + i * MAX_FRAME_SIZE
  {
    if b in Cut(base, n - 1) { i := CutAt(base, n - 1, b); } else { i := n - 1; }
  }

  lemma CutApart(base: nat)
    ensures Apart(Cut(base, NUMBER_OF_MEMORY_BUFFER), base)
  {
    hide Cut;
    var all := Cut(base, NUMBER_OF_MEMORY_BUFFER);
    forall b | b in all ensures base <= b && b + HEADER_SIZE + 1500 <= base + NUMBER_OF_MEMORY_BUFFER * MAX_FRAME_SIZE {
      var i := CutAt(base, NUMBER_OF_MEMORY_BUFFER, b);
    }
    forall b, c | b in all && c in all && b < c ensures b + HEADER_SIZE + 1500 <= c {
      var i := CutAt(base, NUMBER_OF_MEMORY_BUFFER, b);
      var k := CutAt(base, NUMBER_OF_MEMORY_BUFFER, c);
    }
  }

  lemma SameLength(tx: seq<TxEntry>, serials: seq<nat>, next: nat)
    requires Numbered(tx, serials, next)
    ensures |serials| == |tx|
  {
  }

  lemma PoolGrew(pool: multiset<Buffer>, pool': multiset<Buffer>, tx': multiset<Buffer>, tx: multiset<Buffer>,
                 b: Buffer)
    requires pool + tx == pool' + tx' && tx == tx' + multiset{b}
    ensures pool' == pool + multiset{b}
  {
    assert pool' == (pool' + tx') - tx';
    assert pool + multiset{b} == (pool + tx) - tx';
  }

  lemma OneLess(serials: seq<nat>, k: nat)
    requires k < |serials| && forall i, j :: 0 <= i < j < |serials| ==> serials[i] < serials[j]
    ensures forall s :: s in serials[..k] + serials[k + 1..] <==> s in serials && s != serials[k]
  {
  }

  // ---------------------------------------------------------------- interleavings

  /** The shared state, and `pending`: the sends whose driver call has not returned, with their local entries. */
  datatype Net = Net(pool: seq<Buffer>, tx: seq<TxEntry>, serials: seq<nat>, next: nat, pending: map<nat, TxEntry>)

  datatype Step = Begin | Fail(serial: nat) | Succeed(serial: nat) | Complete(id: nat)

  ghost predicate Inv(n: Net, all: multiset<Buffer>) {
    && Stocked(n.pool, n.tx, all) && Numbered(n.tx, n.serials, n.next)
    && forall s :: s in n.pending ==> s < n.next && n.pending[s].id == s % IDS && Mine(n, s)
  }

  /** If the entry of send `s` is still listed, it is the one that the sender holds. */
  ghost predicate Mine(n: Net, s: nat)
    requires s in n.pending
  {
    |n.serials| == |n.tx| && forall i :: 0 <= i < |n.serials| && n.serials[i] == s ==> n.tx[i] == n.pending[s]
  }

  /** Fewer than 2^32 sends happened since any listed or pending one. */
  ghost predicate AllRecent(n: Net) {
    (forall i :: 0 <= i < |n.serials| ==> Recent(n.serials[i], n.next)) && forall s :: s in n.pending ==>
      Recent(s, n.next)
  }

  /** The entry that is found goes, and `buffer`, the one at hand, returns to the pool. */
  function Release(n: Net, id: nat, buffer: Buffer): Net {
    var k := Find(n.tx, id, 0);
    if k == |n.tx| || |n.serials| != |n.tx| then n
    else n.(pool := n.pool + [buffer], tx := Dropped(n.tx, k), serials := Dropped(n.serials, k))
  }

  function Next(n: Net, e: Step): Net {
    match e
    case Begin =>
      if n.pool == [] then n
      else
        var entry := TxEntry(n.next % IDS, n.pool[|n.pool| - 1]);
        Net(n.pool[..|n.pool| - 1], n.tx + [entry], n.serials + [n.next], n.next + 1, n.pending[n.next := entry])
    case Fail(s) =>
      if s !in n.pending then n
      else Release(n, n.pending[s].id, n.pending[s].buffer).(pending := n.pending - {s})
    case Succeed(s) => n.(pending := n.pending - {s})
    case Complete(id) =>
      var k := Find(n.tx, id, 0);
      if k == |n.tx| then n else Release(n, id, n.tx[k].buffer)
  }

  lemma ReleaseKeeps(n: Net, id: nat, buffer: Buffer, all: multiset<Buffer>)
    requires Inv(n, all) && (Find(n.tx, id, 0) < |n.tx| ==> n.tx[Find(n.tx, id, 0)].buffer == buffer)
    ensures Inv(Release(n, id, buffer), all)
  {
    hide Stocked, Numbered, Dropped, Find;
    var k := Find(n.tx, id, 0);
    if k < |n.tx| {
      SameLength(n.tx, n.serials, n.next);
      StockGive(n.pool, n.tx, all, k);
      NumberedDropped(n.tx, n.serials, n.next, k);
      var n' := Release(n, id, buffer);
      forall s | s in n.pending ensures Mine(n', s) { MineKept(n, n', k, s); }
    }
  }

  lemma MineKept(n: Net, n': Net, k: nat, s: nat)
    requires s in n.pending && Mine(n, s) && k < |n.tx| && n'.pending == n.pending
    requires n'.tx == Dropped(n.tx, k) && n'.serials == Dropped(n.serials, k)
    ensures Mine(n', s)
  {
  }

  lemma BeginKeeps(n: Net, all: multiset<Buffer>)
    requires Inv(n, all)
    ensures Inv(Next(n, Begin), all)
  {
    if n.pool != [] {
      StockTake(n.pool, n.tx, all, n.next % IDS);
      NumberedSnoc(n.tx, n.serials, n.next, n.pool[|n.pool| - 1]);
      var n' := Next(n, Begin);
      hide Stocked, Buffers;
      forall s | s in n'.pending ensures Mine(n', s) {
        assert s in n.pending ==> Mine(n, s);
      }
    }
  }

  /** A failed send finds its own entry or none, so every step keeps the buffers together. */
  lemma NextKeeps(n: Net, e: Step, all: multiset<Buffer>)
    requires Inv(n, all) && AllRecent(n)
    ensures Inv(Next(n, e), all)
  {
    hide Stocked, Find;
    match e {
      case Begin => BeginKeeps(n, all);
      case Fail(s) =>
        if s in n.pending {
          var k := Find(n.tx, n.pending[s].id, 0);
          if k < |n.tx| { IdTells(n.serials[k], s, n.next); }
          ReleaseKeeps(n, n.pending[s].id, n.pending[s].buffer, all);
          LessPending(Release(n, n.pending[s].id, n.pending[s].buffer), s, all);
        }
      case Succeed(s) => LessPending(n, s, all);
      case Complete(id) =>
        var k := Find(n.tx, id, 0);
        if k < |n.tx| { ReleaseKeeps(n, id, n.tx[k].buffer, all); }
    }
  }

  lemma LessPending(n: Net, s: nat, all: multiset<Buffer>)
    requires Inv(n, all)
    ensures Inv(n.(pending := n.pending - {s}), all)
  {
    hide Stocked, Numbered;
    var n' := n.(pending := n.pending - {s});
    forall t | t in n'.pending ensures Mine(n', t) { assert Mine(n, t); }
  }

  /** Some interleaving of sends, failures and completions. */
  ghost predicate Interleaving(n: Net, steps: seq<Step>, n': Net)
    decreases |steps|
  {
    if steps == [] then n' == n else AllRecent(n) && Interleaving(Next(n, steps[0]), steps[1..], n')
  }

  /** In every interleaving the 128 buffers stay distinct, and each is in the pool or on the list. */
  lemma {:induction false} InterleavingsKeep(n: Net, steps: seq<Step>, n': Net, all: multiset<Buffer>)
    requires Inv(n, all) && Interleaving(n, steps, n')
    ensures Inv(n', all)
    decreases |steps|
  {
    hide Inv, Next, AllRecent;
    if steps != [] {
      NextKeeps(n, steps[0], all);
      InterleavingsKeep(Next(n, steps[0]), steps[1..], n', all);
    }
  }

  // ---------------------------------------------------------------- the manager takes these steps

  /** The manager is in the state of the interleaving, with these sends pending. */
  ghost predicate InNet(m: EthernetDeviceManager, pending: map<nat, TxEntry>, n: Net)
    reads m, m.memoryBuffer
  {
    && m.Valid() && n.pool == m.Pool() && n.tx == m.txList && n.serials == m.serials && n.next == m.sends
    && n.pending == pending && Inv(n, m.all)
  }

  /** The state of a new manager. */
  ghost function Start(m: EthernetDeviceManager): Net
    reads m, m.memoryBuffer
    requires m.Valid()
  {
    Net(m.Pool(), m.txList, m.serials, m.sends, map[])
  }

  /** The manager follows every interleaving: its buffers, its list and the sends that it serves are those of the
      model. */
  method Drive(m: EthernetDeviceManager, steps: seq<Step>, ghost n': Net) returns (ghost n: Net)
    requires m.Valid() && m.sends == 0 && m.devices > 0 && Interleaving(Start(m), steps, n')
    modifies m`numberOfMemoryBuffer, m`txList, m`nextId, m`serials, m`sends, m.memoryBuffer
    ensures n == n' && exists pending :: InNet(m, pending, n)
  {
    hide Stocked, Numbered, AllRecent, Next, EthernetDeviceManager.Valid;
    n := Start(m);
    var pending: map<nat, TxEntry> := map[];
    var next := 0;
    StartInv(m);
    assert steps[0..] == steps;
    for k := 0 to |steps|
      invariant InNet(m, pending, n) && Interleaving(n, steps[k..], n') && next == m.sends
    {
      assert steps[k..][0] == steps[k] && steps[k..][1..] == steps[k + 1..];
      NextKeeps(n, steps[k], m.all);
      pending, next := TakeStep(m, steps[k], pending, next, n);
      n := Next(n, steps[k]);
    }
    assert InNet(m, pending, n);
  }

  lemma StartInv(m: EthernetDeviceManager)
    requires m.Valid()
    ensures Inv(Start(m), m.all)
  {
    hide Stocked, Numbered;
  }

  /** One step through the methods of the manager; `next` numbers the sends. */
  method TakeStep(m: EthernetDeviceManager, e: Step, pending: map<nat, TxEntry>, next: nat, ghost n: Net)
    returns (pending': map<nat, TxEntry>, next': nat)
    requires InNet(m, pending, n) && AllRecent(n) && m.devices > 0 && next == m.sends && Inv(Next(n, e), m.all)
    modifies m`numberOfMemoryBuffer, m`txList, m`nextId, m`serials, m`sends, m.memoryBuffer
    ensures InNet(m, pending', Next(n, e)) && next' == m.sends
  {
    hide Stocked, Numbered, Find, Dropped;
    pending', next' := pending, next;
    SameLength(n.tx, n.serials, n.next);
    match e {
      case Begin =>
        var r := m.BeginSend(0, 0);
        assert r.Err? ==> r.error.DataSizeError? || r.error.InvalidDevice? || r.error.OutOfBuffer?;
        if r.Ok? {
          assert m.Pool() == n.pool[..|n.pool| - 1] && r.value == TxEntry(n.next % IDS, n.pool[|n.pool| - 1]);
          pending', next' := pending[next := r.value], next + 1;
        }
      case Fail(s) =>
        if s in pending {
          var _ := m.SendFailed(pending[s], s);
          pending' := pending - {s};
        }
      case Succeed(s) => pending' := pending - {s};
      case Complete(id) => var _ := m.UpdateTransmitStatus(id);
    }
  }
}
