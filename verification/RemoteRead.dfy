// The host's view of device memory: word accesses over the network, and the
// engine that keeps many loads in flight at once.
module RemoteRead {
  import opened Bits
  import opened EvaMap

  type Byte = b: nat | b < 256

  /** Device memory, byte by byte; addresses never written hold zero. */
  type Memory = map<Npa, Byte>

  function Get(mem: Memory, npa: Npa): Byte { if npa in mem then mem[npa] else 0 }

  /** The address k bytes on; an EPA is a 32-bit number. */
  function Plus(npa: Npa, k: nat): Npa { npa.(epa := (npa.epa + k) % TWO32) }

  function Pack(b0: Byte, b1: Byte, b2: Byte, b3: Byte): nat { b0 + 0x100 * b1 + 0x1_0000 * b2 + 0x100_0000 * b3 }

  function ByteOf(word: nat, k: nat): Byte
    requires k < 4
  {
    if k == 0 then word % 256 else if k == 1 then word / 0x100 % 256
    else if k == 2 then word / 0x1_0000 % 256 else word / 0x100_0000 % 256
  }

  lemma PackRoundTrip(b0: Byte, b1: Byte, b2: Byte, b3: Byte)
    ensures var w := Pack(b0, b1, b2, b3);
      w == b0 + 0x100 * b1 + 0x1_0000 * b2 + 0x100_0000 * b3 && w < TWO32
      && ByteOf(w, 0) == b0 && ByteOf(w, 1) == b1 && ByteOf(w, 2) == b2 && ByteOf(w, 3) == b3
  {
    var w := Pack(b0, b1, b2, b3);
    assert w / 0x100_0000 == b3;
    assert w / 0x1_0000 == 0x100 * b3 + b2;
    assert w / 0x100 == 0x100 * (0x100 * b3 + b2) + b1;
  }

  /** The little-endian word at an address. */
  function Word(mem: Memory, npa: Npa): nat {
    Pack(Get(mem, npa), Get(mem, Plus(npa, 1)), Get(mem, Plus(npa, 2)), Get(mem, Plus(npa, 3)))
  }

  /** Memory after a word store. */
  function Store(mem: Memory, npa: Npa, word: nat): Memory {
    mem[npa := ByteOf(word, 0)][Plus(npa, 1) := ByteOf(word, 1)]
       [Plus(npa, 2) := ByteOf(word, 2)][Plus(npa, 3) := ByteOf(word, 3)]
  }

  datatype Status =
    | Success | Busy | Unaligned | NoImpl | TransportError | TranslationError
    | BadLoadId | UnexpectedLoadId | IndexOutside

  // ---------------------------------------------------------------- the network

  /** The device and the network in front of it. A load is answered once, at any
      later time and in any order; a transmitter can be busy finitely often; an
      unreliable network may fail instead. */
  class Fabric {
    const reliable: bool
    var mem: Memory
    var pending: map<nat, Npa>
    var busyLeft: nat

    constructor (mem: Memory, busyLeft: nat, reliable: bool)
      ensures this.mem == mem && this.busyLeft == busyLeft && this.reliable == reliable && pending == map[]
    {
      this.mem, this.busyLeft, this.reliable, this.pending := mem, busyLeft, reliable, map[];
    }

    // Ask for the word at npa. No two loads in flight carry the same id.
    method SendRead(npa: Npa, id: nat) returns (s: Status)
      requires id !in pending
      modifies this`pending, this`busyLeft
      ensures npa.epa % 4 != 0 ==> s == Unaligned
      ensures npa.epa % 4 == 0 ==> s == Success || s == Busy || (!reliable && s == TransportError)
      ensures pending == if s == Success then old(pending)[id := npa] else old(pending)
      ensures s == Busy ==> busyLeft < old(busyLeft)
      ensures busyLeft <= old(busyLeft)
    {
      if npa.epa % 4 != 0 {
        return Unaligned;
      }
      if * {
        if busyLeft > 0 {
          busyLeft := busyLeft - 1;
          return Busy;
        }
      }
      if * {
        if !reliable {
          return TransportError;
        }
      }
      pending := pending[id := npa];
      return Success;
    }

    // Wait for an answer to any load in flight.
    method ReceiveRead() returns (s: Status, data: nat, id: nat)
      requires pending != map[]
      modifies this`pending
      ensures s == Success || (!reliable && s == TransportError)
      ensures s == Success ==>
        && id in old(pending) && data == Word(mem, old(pending)[id])
        && pending == old(pending) - {id}
      ensures s != Success ==> pending == old(pending)
    {
      if * {
        if !reliable {
          return TransportError, 0, 0;
        }
      }
      assert exists i :: i in pending by { assert pending.Keys != {}; }
      id :| id in pending;
      data := Word(mem, pending[id]);
      pending := pending - {id};
      return Success, data, id;
    }

    method WriteWord(npa: Npa, word: nat) returns (s: Status)
      modifies this`mem
      ensures npa.epa % 4 != 0 ==> s == Unaligned
      ensures npa.epa % 4 == 0 ==> s == Success || (!reliable && s == TransportError)
      ensures mem == if s == Success then Store(old(mem), npa, word) else old(mem)
    {
      if npa.epa % 4 != 0 {
        return Unaligned;
      }
      if * {
        if !reliable {
          return TransportError;
        }
      }
      mem := Store(mem, npa, word);
      return Success;
    }
  }

  // ---------------------------------------------------------------- the invariant

  /** What the engine knows: the stack of free ids, the request each id was last
      used for, and how many requests were sent. */
  datatype Tracker = Tracker(ids: seq<nat>, idToRsp: map<nat, nat>, sent: nat)

  // Free ids and ids in flight split 0 .. nIds - 1.
  ghost predicate SplitsIds(t: Tracker, pending: map<nat, Npa>, nIds: nat) {
    && (forall i, j :: 0 <= i < j < |t.ids| ==> t.ids[i] != t.ids[j])
    && (forall id: nat :: id in t.ids || id in pending <==> id < nIds)
    && (forall id :: id in t.ids ==> id !in pending)
  }

  // Loads in flight belong to different requests that were sent.
  ghost predicate TracksLoads(t: Tracker, pending: map<nat, Npa>, addrs: seq<Npa>) {
    && t.sent <= |addrs|
    && (forall id :: id in pending ==>
          id in t.idToRsp && t.idToRsp[id] < t.sent && pending[id] == addrs[t.idToRsp[id]])
    && (forall id, id' :: id in pending && id' in pending && id != id' ==> t.idToRsp[id] != t.idToRsp[id'])
  }

  ghost predicate InFlight(t: Tracker, pending: map<nat, Npa>, i: nat) {
    exists id :: id in pending && id in t.idToRsp && t.idToRsp[id] == i
  }

  // Every request sent is in flight or answered correctly.
  ghost predicate Answered(t: Tracker, pending: map<nat, Npa>, addrs: seq<Npa>, mem: Memory, data: seq<nat>) {
    |data| >= |addrs| && t.sent <= |addrs|
    && forall i :: 0 <= i < t.sent ==> InFlight(t, pending, i) || data[i] == Word(mem, addrs[i])
  }

  ghost predicate Consistent(
    t: Tracker, pending: map<nat, Npa>, addrs: seq<Npa>, mem: Memory, data: seq<nat>, nIds: nat, received: nat)
  {
    && SplitsIds(t, pending, nIds) && TracksLoads(t, pending, addrs) && Answered(t, pending, addrs, mem, data)
    && received + |pending| == t.sent
  }

  lemma StartIsConsistent(ids: seq<nat>, addrs: seq<Npa>, mem: Memory, data: seq<nat>, nIds: nat)
    requires |ids| == nIds && (forall i :: 0 <= i < nIds ==> ids[i] == nIds - 1 - i) && |data| >= |addrs|
    ensures Consistent(Tracker(ids, map[], 0), map[], addrs, mem, data, nIds, 0)
  {
    forall id: nat | id < nIds ensures id in ids { assert ids[nIds - 1 - id] == id; }
  }

  lemma SendKeepsConsistent(
    t: Tracker, pending: map<nat, Npa>, addrs: seq<Npa>, mem: Memory, data: seq<nat>, nIds: nat, received: nat)
    requires Consistent(t, pending, addrs, mem, data, nIds, received) && t.ids != [] && t.sent < |addrs|
    ensures var id := t.ids[|t.ids| - 1];
      id !in pending && id < nIds
      && Consistent(Tracker(t.ids[..|t.ids| - 1], t.idToRsp[id := t.sent], t.sent + 1),
                    pending[id := addrs[t.sent]], addrs, mem, data, nIds, received)
  {
    hide SplitsIds, TracksLoads, Answered, Word;
    IdsAfterSend(t, pending, nIds, addrs[t.sent]);
    LoadsAfterSend(t, pending, addrs);
    DataAfterSend(t, pending, addrs, mem, data);
  }

  lemma IdsAfterSend(t: Tracker, pending: map<nat, Npa>, nIds: nat, npa: Npa)
    requires SplitsIds(t, pending, nIds) && t.ids != []
    ensures var id := t.ids[|t.ids| - 1]; id !in pending && id < nIds
    ensures var id := t.ids[|t.ids| - 1];
      SplitsIds(Tracker(t.ids[..|t.ids| - 1], t.idToRsp[id := t.sent], t.sent + 1), pending[id := npa], nIds)
  {
    var n := |t.ids| - 1;
    var id := t.ids[n];
    assert id in t.ids;
    var ids', pending' := t.ids[..n], pending[id := npa];
    forall j: nat ensures j in t.ids <==> j in ids' || j == id {
      if j in t.ids && j != id {
        var k :| 0 <= k < |t.ids| && t.ids[k] == j;
        assert ids'[k] == j;
      }
    }
    forall j | j in ids' ensures j !in pending' {
      var k :| 0 <= k < n && t.ids[k] == j;
      assert j in t.ids && t.ids[k] != t.ids[n];
    }
  }

  lemma LoadsAfterSend(t: Tracker, pending: map<nat, Npa>, addrs: seq<Npa>)
    requires TracksLoads(t, pending, addrs) && t.ids != [] && t.sent < |addrs|
    ensures var id := t.ids[|t.ids| - 1];
      TracksLoads(Tracker(t.ids[..|t.ids| - 1], t.idToRsp[id := t.sent], t.sent + 1), pending[id := addrs[t.sent]], addrs)
  {
  }

  lemma DataAfterSend(t: Tracker, pending: map<nat, Npa>, addrs: seq<Npa>, mem: Memory, data: seq<nat>)
    requires Answered(t, pending, addrs, mem, data) && t.ids != [] && t.sent < |addrs| && t.ids[|t.ids| - 1] !in pending
    ensures var id := t.ids[|t.ids| - 1];
      Answered(Tracker(t.ids[..|t.ids| - 1], t.idToRsp[id := t.sent], t.sent + 1), pending[id := addrs[t.sent]], addrs, mem, data)
  {
    hide Word;
    var id := t.ids[|t.ids| - 1];
    var t' := Tracker(t.ids[..|t.ids| - 1], t.idToRsp[id := t.sent], t.sent + 1);
    var pending' := pending[id := addrs[t.sent]];
    forall i | 0 <= i < t'.sent ensures InFlight(t', pending', i) || data[i] == Word(mem, addrs[i]) {
      if i == t.sent {
        assert id in pending' && t'.idToRsp[id] == i;
      } else if InFlight(t, pending, i) {
        var j :| j in pending && j in t.idToRsp && t.idToRsp[j] == i;
        assert j in pending' && t'.idToRsp[j] == i;
      }
    }
  }

  lemma AnswerKeepsConsistent(
    t: Tracker, pending: map<nat, Npa>, addrs: seq<Npa>, mem: Memory, data: seq<nat>, nIds: nat, received: nat, id: nat)
    requires Consistent(t, pending, addrs, mem, data, nIds, received) && id in pending
    ensures id < nIds && id in t.idToRsp && t.idToRsp[id] < |addrs|
    ensures Consistent(t.(ids := t.ids + [id]), pending - {id}, addrs, mem,
                       data[t.idToRsp[id] := Word(mem, pending[id])], nIds, received + 1)
  {
    hide SplitsIds, TracksLoads, Answered, Word;
    IdsAfterAnswer(t, pending, nIds, id);
    LoadsAfterAnswer(t, pending, addrs, id);
    DataAfterAnswer(t, pending, addrs, mem, data, id);
    assert pending.Keys == (pending - {id}).Keys + {id};
  }

  lemma LoadsAfterAnswer(t: Tracker, pending: map<nat, Npa>, addrs: seq<Npa>, id: nat)
    requires TracksLoads(t, pending, addrs) && id in pending
    ensures id in t.idToRsp && t.idToRsp[id] < |addrs|
    ensures TracksLoads(t.(ids := t.ids + [id]), pending - {id}, addrs)
  {
  }

  lemma DataAfterAnswer(t: Tracker, pending: map<nat, Npa>, addrs: seq<Npa>, mem: Memory, data: seq<nat>, id: nat)
    requires TracksLoads(t, pending, addrs) && Answered(t, pending, addrs, mem, data) && id in pending
    ensures Answered(t.(ids := t.ids + [id]), pending - {id}, addrs, mem, data[t.idToRsp[id] := Word(mem, pending[id])])
  {
    hide Word;
    var t' := t.(ids := t.ids + [id]);
    var pending' := pending - {id};
    var data' := data[t.idToRsp[id] := Word(mem, pending[id])];
    forall i | 0 <= i < t.sent ensures InFlight(t', pending', i) || data'[i] == Word(mem, addrs[i]) {
      if InFlight(t, pending, i) && i != t.idToRsp[id] {
        var j :| j in pending && j in t.idToRsp && t.idToRsp[j] == i;
        assert j in pending';
      }
    }
  }

  lemma IdsAfterAnswer(t: Tracker, pending: map<nat, Npa>, nIds: nat, id: nat)
    requires SplitsIds(t, pending, nIds) && id in pending
    ensures id < nIds && SplitsIds(t.(ids := t.ids + [id]), pending - {id}, nIds)
  {
    var ids' := t.ids + [id];
    forall j: nat ensures j in ids' <==> j in t.ids || j == id { }
  }

  lemma SomethingInFlight(
    t: Tracker, pending: map<nat, Npa>, addrs: seq<Npa>, mem: Memory, data: seq<nat>, nIds: nat, received: nat)
    requires Consistent(t, pending, addrs, mem, data, nIds, received) && received < t.sent
    ensures pending != map[]
  {
  }

  lemma NothingInFlight(
    t: Tracker, pending: map<nat, Npa>, addrs: seq<Npa>, mem: Memory, data: seq<nat>, nIds: nat, received: nat)
    requires Consistent(t, pending, addrs, mem, data, nIds, received) && received == t.sent
    ensures pending == map[]
    ensures forall i :: 0 <= i < t.sent ==> data[i] == Word(mem, addrs[i])
    ensures nIds > 0 ==> t.ids != []
  {
    assert pending == map[];
    if nIds > 0 { assert 0 in t.ids; }
  }

  // ---------------------------------------------------------------- the engine

  // Send requests until all are sent, the pool of ids is empty, or the network
  // is busy. Without progress, the network was busy.
  method RequestWords(fabric: Fabric, t: Tracker, addrs: seq<Npa>, ghost data: seq<nat>, ghost nIds: nat, ghost received: nat)
    returns (s: Status, t': Tracker)
    requires Consistent(t, fabric.pending, addrs, fabric.mem, data, nIds, received) && nIds >= 1 && |addrs| <= TWO32
    modifies fabric`pending, fabric`busyLeft
    ensures s == Success || s == Unaligned || (!fabric.reliable && s == TransportError)
    ensures s == Success ==> Consistent(t', fabric.pending, addrs, fabric.mem, data, nIds, received)
    ensures s == Success ==> t.sent <= t'.sent <= |addrs| && fabric.busyLeft <= old(fabric.busyLeft)
    ensures s == Success && t.sent == t'.sent && received == t.sent < |addrs| ==> fabric.busyLeft < old(fabric.busyLeft)
    ensures s == Success ==> forall i :: t.sent <= i < t'.sent ==> addrs[i].epa % 4 == 0
    ensures s == Unaligned ==> exists i :: t.sent <= i < |addrs| && addrs[i].epa % 4 != 0
  {
    hide Consistent;
    t' := t;
    SentIsBounded(t, fabric.pending, addrs, fabric.mem, data, nIds, received);
    while t'.sent < |addrs|
      invariant t.sent <= t'.sent <= |addrs| && fabric.busyLeft <= old(fabric.busyLeft)
      invariant Consistent(t', fabric.pending, addrs, fabric.mem, data, nIds, received)
      invariant forall i :: t.sent <= i < t'.sent ==> addrs[i].epa % 4 == 0
      decreases |addrs| - t'.sent
    {
      // out of load ids
      if t'.ids == [] {
        EmptyPoolIsInFlight(t', fabric.pending, addrs, fabric.mem, data, nIds, received);
        return Success, t';
      }
      SendKeepsConsistent(t', fabric.pending, addrs, fabric.mem, data, nIds, received);
      FreeIdIsUnused(t', fabric.pending, addrs, fabric.mem, data, nIds, received, t'.sent);
      var id := t'.ids[|t'.ids| - 1];
      t' := t'.(idToRsp := t'.idToRsp[id := t'.sent % TWO32]);
      s := fabric.SendRead(addrs[t'.sent], id);
      if s == Success {
        t' := t'.(sent := t'.sent + 1, ids := t'.ids[..|t'.ids| - 1]);
      } else if s == Busy {
        return Success, t';
      } else {
        return;
      }
    }
    return Success, t';
  }

  // Receive the answers to all requests sent.
  method CollectAnswers(fabric: Fabric, t: Tracker, ghost addrs: seq<Npa>, data: array<nat>, nIds: nat, cnt: nat, received: nat)
    returns (s: Status, t': Tracker)
    requires cnt == |addrs| <= data.Length
    requires Consistent(t, fabric.pending, addrs, fabric.mem, data[..], nIds, received)
    modifies data, fabric`pending
    ensures s == Success || (!fabric.reliable && s == TransportError)
    ensures s == Success ==> t'.sent == t.sent && Consistent(t', fabric.pending, addrs, fabric.mem, data[..], nIds, t'.sent)
    ensures data[cnt..] == old(data[cnt..])
  {
    hide Consistent, Word;
    t' := t;
    var rspI := received;
    SentIsBounded(t, fabric.pending, addrs, fabric.mem, data[..], nIds, received);
    while rspI < t'.sent
      invariant rspI <= t'.sent == t.sent
      invariant Consistent(t', fabric.pending, addrs, fabric.mem, data[..], nIds, rspI)
      invariant data[cnt..] == old(data[cnt..])
    {
      SomethingInFlight(t', fabric.pending, addrs, fabric.mem, data[..], nIds, rspI);
      ghost var pending := fabric.pending;
      var readData, loadId;
      s, readData, loadId := fabric.ReceiveRead();
      if s != Success {
        return;
      }
      AnswerKeepsConsistent(t', pending, addrs, fabric.mem, data[..], nIds, rspI, loadId);
      if loadId >= nIds {
        return BadLoadId, t';
      }
      if loadId !in t'.idToRsp {
        return UnexpectedLoadId, t';
      }
      var idx := t'.idToRsp[loadId];
      if idx > cnt {
        return IndexOutside, t';
      }
      ghost var before := data[..];
      data[idx] := readData;
      assert data[..] == before[idx := readData];
      rspI := rspI + 1;
      t' := t'.(ids := t'.ids + [loadId]);
    }
    return Success, t';
  }

  /** Read the word at every address into data. Each load in flight carries an id
      from a bounded pool; answers come back in any order. */
  method ReadMemInternal(fabric: Fabric, addrs: seq<Npa>, data: array<nat>, nIds: nat) returns (s: Status)
    requires fabric.pending == map[] && data.Length >= |addrs| && nIds >= 1 && |addrs| <= TWO32
    modifies data, fabric`pending, fabric`busyLeft
    ensures s == Success || s == Unaligned || (!fabric.reliable && s == TransportError)
    ensures s == Success ==>
      && (forall i :: 0 <= i < |addrs| ==> data[i] == Word(fabric.mem, addrs[i]) && addrs[i].epa % 4 == 0)
      && fabric.pending == map[]
    ensures s == Unaligned ==> exists i :: 0 <= i < |addrs| && addrs[i].epa % 4 != 0
    ensures data[|addrs|..] == old(data[|addrs|..])
  {
    hide Consistent, Word;
    var cnt := |addrs|;
    var ids: seq<nat> := [];
    for i := nIds downto 0
      invariant |ids| == nIds - i && forall k :: 0 <= k < |ids| ==> ids[k] == nIds - 1 - k
    {
      ids := ids + [i];
    }
    var t := Tracker(ids, map[], 0);
    StartIsConsistent(ids, addrs, fabric.mem, data[..], nIds);
    var rspI := 0;
    while rspI < cnt
      invariant rspI == t.sent <= cnt
      invariant Consistent(t, fabric.pending, addrs, fabric.mem, data[..], nIds, rspI)
      invariant forall i :: 0 <= i < t.sent ==> addrs[i].epa % 4 == 0
      invariant data[cnt..] == old(data[cnt..])
      decreases cnt - rspI, fabric.busyLeft
    {
      s, t := RequestWords(fabric, t, addrs, data[..], nIds, rspI);
      if s != Success {
        return;
      }
      s, t := CollectAnswers(fabric, t, addrs, data, nIds, cnt, rspI);
      if s != Success {
        return;
      }
      rspI := t.sent;
    }
    NothingInFlight(t, fabric.pending, addrs, fabric.mem, data[..], nIds, rspI);
    return Success;
  }

  lemma SentIsBounded(
    t: Tracker, pending: map<nat, Npa>, addrs: seq<Npa>, mem: Memory, data: seq<nat>, nIds: nat, received: nat)
    requires Consistent(t, pending, addrs, mem, data, nIds, received)
    ensures received <= t.sent <= |addrs|
  {
  }

  // An empty pool means that something is in flight.
  lemma EmptyPoolIsInFlight(
    t: Tracker, pending: map<nat, Npa>, addrs: seq<Npa>, mem: Memory, data: seq<nat>, nIds: nat, received: nat)
    requires Consistent(t, pending, addrs, mem, data, nIds, received) && nIds >= 1 && t.ids == []
    ensures received < t.sent
  {
    assert 0 in pending;
    assert pending.Keys != {};
  }

  // A busy answer leaves a record behind for an id that stays free.
  lemma FreeIdIsUnused(
    t: Tracker, pending: map<nat, Npa>, addrs: seq<Npa>, mem: Memory, data: seq<nat>, nIds: nat, received: nat, i: nat)
    requires Consistent(t, pending, addrs, mem, data, nIds, received) && t.ids != []
    ensures Consistent(t.(idToRsp := t.idToRsp[t.ids[|t.ids| - 1] := i]), pending, addrs, mem, data, nIds, received)
  {
    var id := t.ids[|t.ids| - 1];
    assert id in t.ids && id !in pending;
    var t' := t.(idToRsp := t.idToRsp[id := i]);
    forall i | 0 <= i < t.sent ensures InFlight(t', pending, i) || data[i] == Word(mem, addrs[i]) {
      if InFlight(t, pending, i) {
        var j :| j in pending && j in t.idToRsp && t.idToRsp[j] == i;
        assert j in pending && t'.idToRsp[j] == i;
      }
    }
  }
}
