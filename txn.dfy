/** Single-node transaction interpreter: a transaction is a list of micro-ops
    [kind, key, value] applied in order to one integer key-value store. */
module Txn {
  import opened Wrappers

  /** One micro-op as decoded from the request. `key` and `value` are None
      when the JSON element is null or not a number. */
  datatype MicroOp = MicroOp(kind: string, key: Option<int>, value: Option<int>)

  /** The store and the reply built so far, while a transaction runs. */
  datatype TxnState = TxnState(store: map<int, int>, result: seq<MicroOp>)

  const ReadKind: string := "r"
  const WriteKind: string := "w"

  /** One micro-op. An op whose key is not numeric is dropped. A read of a
      stored key fills in the stored value; a write of a numeric value stores
      it; every op with a numeric key is appended to the reply. */
  function Step(st: TxnState, op: MicroOp): (r: TxnState)
    ensures op.key.None? ==> r == st
    ensures op.key.Some? ==> |r.result| == |st.result| + 1 && r.result[..|st.result|] == st.result
    ensures op.key.Some? ==> Echoes(op, r.result[|st.result|])
    ensures op.kind == ReadKind && op.key.Some? ==>
      r.result[|st.result|].value == if op.key.value in st.store then Some(st.store[op.key.value]) else op.value
    ensures forall k :: k in st.store ==> k in r.store
    ensures forall k :: k in r.store && (op.kind != WriteKind || op.key != Some(k) || op.value.None?) ==>
      k in st.store && r.store[k] == st.store[k]
    ensures op.kind == WriteKind && op.key.Some? && op.value.Some? ==>
      op.key.value in r.store && r.store[op.key.value] == op.value.value
  {
    match op.key
    case None => st
    case Some(k) =>
      if op.kind == ReadKind then
        var reply := if k in st.store then op.(value := Some(st.store[k])) else op;
        TxnState(st.store, st.result + [reply])
      else if op.kind == WriteKind then
        var store := if op.value.Some? then st.store[k := op.value.value] else st.store;
        TxnState(store, st.result + [op])
      else
        TxnState(st.store, st.result + [op])
  }

  /** A reply element echoes the op it answers: same kind and key, and the
      same value unless the op is a read. */
  predicate Echoes(op: MicroOp, reply: MicroOp)
  {
    && reply.kind == op.kind
    && reply.key == op.key
    && (op.kind != ReadKind ==> reply.value == op.value)
  }

  /** The ops of a transaction, applied in order. */
  function Run(st: TxnState, ops: seq<MicroOp>): (r: TxnState)
    ensures |st.result| <= |r.result| <= |st.result| + |ops|
    ensures r.result[..|st.result|] == st.result
    ensures forall k :: k in st.store ==> k in r.store
  {
    if ops == [] then st else Step(Run(st, ops[..|ops| - 1]), ops[|ops| - 1])
  }

  /** The ops that are not dropped: those with a numeric key, in input order. */
  function Kept(ops: seq<MicroOp>): (kept: seq<MicroOp>)
    ensures |kept| <= |ops|
    ensures forall op :: op in kept ==> op in ops && op.key.Some?
  {
    if ops == [] then []
    else if ops[|ops| - 1].key.Some? then Kept(ops[..|ops| - 1]) + [ops[|ops| - 1]]
    else Kept(ops[..|ops| - 1])
  }

  /** No op with a numeric key is dropped: each one is kept. */
  lemma {:induction false} KeptComplete(ops: seq<MicroOp>)
    ensures forall op :: op in ops && op.key.Some? ==> op in Kept(ops)
  {
    if ops != [] {
      KeptComplete(ops[..|ops| - 1]);
      assert ops == ops[..|ops| - 1] + [ops[|ops| - 1]];
    }
  }

  /** Running a transaction in two pieces is running it whole. */
  lemma {:induction false} RunConcat(st: TxnState, a: seq<MicroOp>, b: seq<MicroOp>)
    ensures Run(st, a + b) == Run(Run(st, a), b)
  {
    if b == [] {
      assert a + b == a;
    } else {
      assert (a + b)[..|a + b| - 1] == a + b[..|b| - 1];
      RunConcat(st, a, b[..|b| - 1]);
    }
  }

  /** The reply keeps what came before, then answers each kept op, in input
      order, one reply element per kept op; dropped ops leave no trace. */
  lemma {:induction false} RunEchoesInOrder(st: TxnState, ops: seq<MicroOp>)
    ensures var r := Run(st, ops).result;
      && |r| == |st.result| + |Kept(ops)|
      && r[..|st.result|] == st.result
      && forall i :: 0 <= i < |Kept(ops)| ==> Echoes(Kept(ops)[i], r[|st.result| + i])
  {
    if ops != [] {
      var init := ops[..|ops| - 1];
      RunEchoesInOrder(st, init);
      var mid := Run(st, init);
      var r := Step(mid, ops[|ops| - 1]).result;
      assert r[..|mid.result|] == mid.result;
      assert r[..|st.result|] == mid.result[..|st.result|];
      forall j | |st.result| <= j < |mid.result| ensures r[j] == mid.result[j] {
        assert r[..|mid.result|][j] == r[j];
      }
    }
  }

  /** The reply never has more elements than the transaction has ops. */
  lemma ReplyNoLongerThanRequest(ops: seq<MicroOp>, store: map<int, int>)
    ensures |Run(TxnState(store, []), ops).result| <= |ops|
  {
  }

  /** Ops other than writes of a numeric value leave the store as it was. */
  predicate NoWriteTo(ops: seq<MicroOp>, k: int)
  {
    forall i :: 0 <= i < |ops| ==> !(ops[i].kind == WriteKind && ops[i].key == Some(k) && ops[i].value.Some?)
  }

  /** A key that no op writes keeps its stored value (or its absence). */
  lemma {:induction false} RunKeepsUnwritten(st: TxnState, ops: seq<MicroOp>, k: int)
    requires NoWriteTo(ops, k)
    ensures k in Run(st, ops).store <==> k in st.store
    ensures k in st.store ==> Run(st, ops).store[k] == st.store[k]
  {
    if ops != [] {
      RunKeepsUnwritten(st, ops[..|ops| - 1], k);
    }
  }

  /** A transaction made only of reads (or of ops that are not writes) leaves
      the store unchanged. */
  lemma {:induction false} ReadsLeaveStore(st: TxnState, ops: seq<MicroOp>)
    requires forall i :: 0 <= i < |ops| ==> ops[i].kind != WriteKind
    ensures Run(st, ops).store == st.store
  {
    if ops != [] {
      ReadsLeaveStore(st, ops[..|ops| - 1]);
    }
  }

  /** Read-your-writes: after a write of v to k, a read of k with no write to
      k in between replies with v. */
  lemma ReadYourWrites(st: TxnState, before: seq<MicroOp>, k: int, v: int, between: seq<MicroOp>, x: Option<int>)
    requires NoWriteTo(between, k)
    ensures var ops := before + [MicroOp(WriteKind, Some(k), Some(v))] + between + [MicroOp(ReadKind, Some(k), x)];
      var r := Run(st, ops).result;
      |r| > 0 && r[|r| - 1] == MicroOp(ReadKind, Some(k), Some(v))
  {
    var w := MicroOp(WriteKind, Some(k), Some(v));
    var read := MicroOp(ReadKind, Some(k), x);
    var ops := before + [w] + between + [read];
    assert ops[..|ops| - 1] == before + [w] + between;
    RunConcat(st, before + [w], between);
    assert (before + [w])[..|before + [w]| - 1] == before;
    RunKeepsUnwritten(Run(st, before + [w]), between, k);
  }

  /** The store shared by all transactions; the handler holds its lock for
      the whole transaction. */
  class KeyValueStore {
    var kv: map<int, int>

    constructor ()
      ensures kv == map[]
    {
      kv := map[];
    }

    /** `txn`: apply the micro-ops in order and reply with the kept ops, reads
        filled in from the store. */
    method HandleTxn(txn: seq<MicroOp>) returns (transactionResult: seq<MicroOp>)
      modifies this
      ensures TxnState(kv, transactionResult) == Run(TxnState(old(kv), []), txn)
    {
      transactionResult := [];
      for i := 0 to |txn|
        invariant TxnState(kv, transactionResult) == Run(TxnState(old(kv), []), txn[..i])
      {
        assert txn[..i + 1][..i] == txn[..i];
        var op := txn[i];
        if op.key.Some? {
          var lookupKey := op.key.value;
          if op.kind == ReadKind {
            if lookupKey in kv {
              op := op.(value := Some(kv[lookupKey]));
            }
          } else if op.kind == WriteKind {
            if op.value.Some? {
              kv := kv[lookupKey := op.value.value];
            }
          }
          transactionResult := transactionResult + [op];
        }
      }
      assert txn[..|txn|] == txn;
    }
  }
}
