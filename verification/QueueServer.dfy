/** The queue object under its handlers: operations and deferred deletions in any order. */
module QueueServer {
  import opened Bytes
  import opened QueueKeys
  import opened QueueModel
  import opened QueueSystem
  import opened QueueEngine

  class Server {
    const mq: HustMq
    var pending: seq<Promise>

    constructor (n: nat, timeout: nat)
      ensures mq.Valid() && fresh(mq) && fresh(mq.slots)
      ensures mq.slots.Length == n && pending == []
      ensures View() == System(Engine(seq(n, _ => FREE_SLOT), map[], map[], 0, false, timeout), [])
    {
      mq := new HustMq(n, timeout);
      pending := [];
      new;
      assert mq.slots[..] == seq(n, _ => FREE_SLOT);
    }

    ghost function View(): System
      reads this, mq, mq.slots
    {
      System(mq.State(), pending)
    }

    /** The get handler up to its deletion. */
    method HandleGet(name: Bytes, worker: Bytes, isAck: bool, fault: bool, replied: bool) returns (out: Out)
      requires mq.Valid()
      modifies this, mq, mq.slots
      ensures mq.Valid()
      ensures (View(), out) == GetStep(old(View()), name, worker, isAck, fault, replied)
    {
      hide QueueModel.Get;
      var d := mq.Get(name, worker, isAck, fault);
      if isAck && replied && d.code == Ok {
        pending := pending + [Promise(name, d.token)];
      }
      assert pending + [] == pending;
      out := Out(d.code, d.item);
    }

    /** The ack handler up to its deletion. */
    method HandleAck(name: Bytes, token: Bytes) returns (out: Out)
      requires mq.Valid()
      modifies this, mq
      ensures mq.Valid()
      ensures (View(), out) == AckStep(old(View()), name, token)
    {
      hide QueueModel.Unrecord;
      var code := mq.Unrecord(name, token);
      if code == Ok {
        pending := pending + [Promise(name, token)];
      }
      assert pending + [] == pending;
      out := Out(code, []);
    }

    /** A handler that goes on to its deletion. */
    method HandleDrop(i: nat, fault: bool) returns (out: Out)
      requires mq.Valid()
      modifies this, mq
      ensures mq.Valid()
      ensures (View(), out) == DropStep(old(View()), i, fault)
    {
      hide Drop;
      if i >= |pending| {
        return Out(Missing, []);
      }
      var code := mq.DropItem(pending[i].name, pending[i].token, fault);
      pending := pending[..i] + pending[i + 1..];
      out := Out(code, []);
    }

    method Execute(op: Op) returns (out: Out)
      requires mq.Valid()
      modifies this, mq, mq.slots
      ensures mq.Valid()
      ensures (View(), out) == Step(old(View()), op)
    {
      hide QueueModel.Put, QueueModel.Purge, QueueModel.SetMax, QueueModel.SetLock, Restart, GetStep, AckStep, DropStep;
      var code := Ok;
      match op {
        case OpPut(name, item, p, fault) => code := mq.Put(name, item, p, fault);
        case OpGet(name, worker, isAck, fault, replied) =>
          out := HandleGet(name, worker, isAck, fault, replied);
          return;
        case OpAck(name, token) =>
          out := HandleAck(name, token);
          return;
        case OpDrop(i, fault) =>
          out := HandleDrop(i, fault);
          return;
        case OpPurge(name, p, stuck) => code := mq.Purge(name, p, stuck);
        case OpMax(name, max) => code := mq.SetMax(name, max);
        case OpLock(name, lock) => code := mq.SetLock(name, lock);
        case OpRestart =>
          mq.InitIndex();
          pending := [];
        case OpClock(now) => mq.now := now;
      }
      out := Out(code, []);
    }

    /** Any sequence of operations and deletions on the object is a run of the model. */
    method RunAll(ops: seq<Op>) returns (outs: seq<Out>)
      requires mq.Valid()
      modifies this, mq, mq.slots
      ensures mq.Valid()
      ensures (View(), outs) == Run(old(View()), ops)
    {
      hide Step;
      outs := [];
      var k := 0;
      assert ops[0..] == ops && [] + Run(View(), ops).1 == Run(View(), ops).1;
      while k < |ops|
        invariant 0 <= k <= |ops| && mq.Valid()
        invariant Run(old(View()), ops) == (Run(View(), ops[k..]).0, outs + Run(View(), ops[k..]).1)
      {
        ghost var before := View();
        var out := Execute(ops[k]);
        assert ops[k..][0] == ops[k] && ops[k..][1..] == ops[k + 1..];
        assert outs + ([out] + Run(View(), ops[k + 1..]).1) == outs + [out] + Run(View(), ops[k + 1..]).1;
        outs := outs + [out];
        k := k + 1;
      }
      assert ops[k..] == [] && outs + [] == outs;
    }
  }
}
