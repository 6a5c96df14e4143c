/** The Ethereum transaction index (indexer/kv_indexer.go): two key spaces in one ordered
    byte store, kept in agreement with the plain list of indexed messages. */
module KvIndexer {
  import opened Numbers
  import opened Wrappers
  import opened TxResultCodec
  import opened TxResultWire
  import opened IndexKeys

  // ------------------------------------------------------------------
  // Blocks, as far as the indexer looks at them
  // ------------------------------------------------------------------

  datatype Code = CodeOk | ExpectedFailure | OtherFailure

  datatype EthMsg = EthMsg(hash: Hash, gas: uint64)

  datatype ParsedTx = ParsedTx(ethTxIndex: int32, gasUsed: uint64, failed: bool)

  /** A decoded transaction with what its events parse to, if they do. */
  datatype Tx = Tx(isEth: bool, msgs: seq<EthMsg>, parsed: Option<seq<ParsedTx>>)

  datatype BlockTx = BlockTx(code: Code, decoded: Option<Tx>)

  datatype Block = Block(height: int64, txs: seq<BlockTx>)

  predicate Indexable(tx: BlockTx) {
    tx.code != OtherFailure && tx.decoded.Some? && tx.decoded.value.isEth && tx.decoded.value.parsed.Some?
  }

  /** Message `m` of an indexable transaction is indexed unless its events are missing. */
  predicate Accepted(tx: BlockTx, m: nat)
    requires Indexable(tx)
  {
    m < |tx.decoded.value.msgs| && (tx.code != CodeOk || m < |tx.decoded.value.parsed.value|)
  }

  function GasUsed(tx: BlockTx, m: nat): (gas: uint64)
    requires Indexable(tx) && Accepted(tx, m)
  {
    if tx.code != CodeOk then tx.decoded.value.msgs[m].gas else tx.decoded.value.parsed.value[m].gasUsed
  }

  function HasFailed(tx: BlockTx, m: nat): (failed: bool)
    requires Indexable(tx) && Accepted(tx, m)
  {
    tx.code != CodeOk || tx.decoded.value.parsed.value[m].failed
  }

  /** Gas of the accepted messages of one transaction below message `m`. */
  function GasBelow(tx: BlockTx, m: nat): (gas: nat)
    requires Indexable(tx)
  {
    if m == 0 then 0 else GasBelow(tx, m - 1) + if Accepted(tx, m - 1) then GasUsed(tx, m - 1) else 0
  }

  // ------------------------------------------------------------------
  // What IndexBlock stores
  // ------------------------------------------------------------------

  /** An indexed message: where it is in the block, its hash and its record. */
  datatype Entry = Entry(t: nat, m: nat, hash: Hash, result: TxResult)

  function NextInt32(i: int32): (r: int32) {
    if i + 1 < TWO_31 then i + 1 else -TWO_31
  }

  /** The entries of transaction `t` from message `m` on, with `index` the next eth index
      and `gas` the gas counted so far in this transaction. */
  function TxEntries(b: Block, t: nat, m: nat, index: int32, gas: uint64): (es: seq<Entry>)
    requires t < |b.txs| && Indexable(b.txs[t]) && m <= |b.txs[t].decoded.value.msgs|
    decreases |b.txs[t].decoded.value.msgs| - m
  {
    var tx := b.txs[t];
    if m == |tx.decoded.value.msgs| then []
    else if !Accepted(tx, m) then TxEntries(b, t, m + 1, index, gas)
    else
      var total := (gas + GasUsed(tx, m)) % TWO_64;
      var result := TxResult(b.height, t % TWO_32, m % TWO_32, index, HasFailed(tx, m), GasUsed(tx, m), total);
      [Entry(t, m, tx.decoded.value.msgs[m].hash, result)] + TxEntries(b, t, m + 1, NextInt32(index), total)
  }

  function AdvanceIndex(index: int32, n: nat): (r: int32)
    decreases n
  {
    if n == 0 then index else AdvanceIndex(NextInt32(index), n - 1)
  }

  function EntriesFrom(b: Block, t: nat, index: int32): (es: seq<Entry>)
    requires t <= |b.txs|
    decreases |b.txs| - t
  {
    if t == |b.txs| then []
    else if !Indexable(b.txs[t]) then EntriesFrom(b, t + 1, index)
    else
      var es := TxEntries(b, t, 0, index, 0);
      es + EntriesFrom(b, t + 1, AdvanceIndex(index, |es|))
  }

  function Entries(b: Block): (es: seq<Entry>) {
    EntriesFrom(b, 0, 0)
  }

  // ---- The entries are the accepted messages, in block order, numbered from 0 ----

  predicate InBlock(b: Block, t: nat, m: nat) {
    t < |b.txs| && Indexable(b.txs[t]) && Accepted(b.txs[t], m)
  }

  /** What entry number `k` of block `b` has to say. */
  predicate EntryCorrect(b: Block, e: Entry, k: nat) {
    && InBlock(b, e.t, e.m)
    && var tx := b.txs[e.t];
       && e.hash == tx.decoded.value.msgs[e.m].hash
       && e.result.height == b.height
       && e.result.txIndex == e.t % TWO_32 && e.result.msgIndex == e.m % TWO_32
       && e.result.ethTxIndex == k
       && e.result.failed == HasFailed(tx, e.m)
       && e.result.gasUsed == GasUsed(tx, e.m)
       && e.result.cumulativeGasUsed == GasBelow(tx, e.m + 1) % TWO_64
  }

  predicate Before(a: Entry, b: Entry) {
    a.t < b.t || (a.t == b.t && a.m < b.m)
  }

  ghost predicate Ordered(es: seq<Entry>) {
    forall i, j :: 0 <= i < j < |es| ==> Before(es[i], es[j])
  }

  lemma {:induction false} TxEntriesOrdered(b: Block, t: nat, m: nat, index: int32, gas: uint64)
    requires t < |b.txs| && Indexable(b.txs[t]) && m <= |b.txs[t].decoded.value.msgs|
    ensures var es := TxEntries(b, t, m, index, gas);
            Ordered(es) && forall k :: 0 <= k < |es| ==> es[k].t == t && es[k].m >= m
    decreases |b.txs[t].decoded.value.msgs| - m
  {
    hide Accepted, GasUsed, HasFailed;
    var tx := b.txs[t];
    if m == |tx.decoded.value.msgs| {
    } else {
      if !Accepted(tx, m) {
        TxEntriesOrdered(b, t, m + 1, index, gas);
      } else {
        TxEntriesOrdered(b, t, m + 1, NextInt32(index), (gas + GasUsed(tx, m)) % TWO_64);
      }
    }
  }

  lemma {:induction false} TxEntriesComplete(b: Block, t: nat, m: nat, index: int32, gas: uint64, m': nat)
    returns (k: nat)
    requires t < |b.txs| && Indexable(b.txs[t]) && m <= |b.txs[t].decoded.value.msgs|
    requires m <= m' && Accepted(b.txs[t], m')
    ensures k < |TxEntries(b, t, m, index, gas)| && TxEntries(b, t, m, index, gas)[k].m == m'
    decreases |b.txs[t].decoded.value.msgs| - m
  {
    hide GasUsed, HasFailed;
    var tx := b.txs[t];
    if m' == m {
      k := 0;
    } else {
      k := TxEntriesComplete(b, t, m + 1, NextInt32(index), (gas + GasUsed(tx, m)) % TWO_64, m');
      k := k + 1;
    }
  }

  lemma {:induction false} TxEntriesCorrect(b: Block, t: nat, m: nat, index: int32, gas: uint64, k: nat)
    requires t < |b.txs| && Indexable(b.txs[t]) && m <= |b.txs[t].decoded.value.msgs|
    requires 0 <= index && gas == GasBelow(b.txs[t], m) % TWO_64
    requires k < |TxEntries(b, t, m, index, gas)| && index + k < TWO_31
    ensures EntryCorrect(b, TxEntries(b, t, m, index, gas)[k], index + k)
    decreases |b.txs[t].decoded.value.msgs| - m
  {
    hide GasUsed, HasFailed;
    var tx := b.txs[t];
    if !Accepted(tx, m) {
      TxEntriesCorrect(b, t, m + 1, index, gas, k);
    } else {
      GasStep(GasBelow(tx, m), GasUsed(tx, m));
      if k > 0 {
        TxEntriesCorrect(b, t, m + 1, NextInt32(index), (gas + GasUsed(tx, m)) % TWO_64, k - 1);
      }
    }
  }

  lemma GasStep(below: nat, gas: uint64)
    ensures (below % TWO_64 + gas) % TWO_64 == (below + gas) % TWO_64
  {
  }

  lemma {:induction false} AdvanceIndexAdds(index: int32, n: nat)
    requires 0 <= index && index + n < TWO_31
    ensures AdvanceIndex(index, n) == index + n
    decreases n
  {
    if n == 0 {
    } else {
      AdvanceIndexAdds(NextInt32(index), n - 1);
    }
  }

  lemma {:induction false} EntriesOrdered(b: Block, t: nat, index: int32)
    requires t <= |b.txs|
    ensures var es := EntriesFrom(b, t, index);
            Ordered(es) && forall k :: 0 <= k < |es| ==> es[k].t >= t
    decreases |b.txs| - t
  {
    hide Indexable, TxEntries;
    if t == |b.txs| {
    } else {
      if !Indexable(b.txs[t]) {
        EntriesOrdered(b, t + 1, index);
      } else {
        var es := TxEntries(b, t, 0, index, 0);
        TxEntriesOrdered(b, t, 0, index, 0);
        EntriesOrdered(b, t + 1, AdvanceIndex(index, |es|));
      }
    }
  }

  lemma {:induction false} EntriesComplete(b: Block, t: nat, index: int32, t': nat, m': nat) returns (k: nat)
    requires t <= t' && InBlock(b, t', m')
    ensures var es := EntriesFrom(b, t, index);
            k < |es| && es[k].t == t' && es[k].m == m'
    decreases |b.txs| - t
  {
    hide TxEntries;
    if !Indexable(b.txs[t]) {
      k := EntriesComplete(b, t + 1, index, t', m');
    } else {
      var es := TxEntries(b, t, 0, index, 0);
      if t == t' {
        k := TxEntriesComplete(b, t, 0, index, 0, m');
        TxEntriesOrdered(b, t, 0, index, 0);
      } else {
        k := EntriesComplete(b, t + 1, AdvanceIndex(index, |es|), t', m');
        k := k + |es|;
      }
    }
  }

  lemma {:induction false} EntriesCorrect(b: Block, t: nat, index: int32, k: nat)
    requires t <= |b.txs| && 0 <= index
    requires k < |EntriesFrom(b, t, index)| && index + k < TWO_31
    ensures EntryCorrect(b, EntriesFrom(b, t, index)[k], index + k)
    decreases |b.txs| - t
  {
    hide TxEntries, EntryCorrect, Indexable;
    if !Indexable(b.txs[t]) {
      EntriesCorrect(b, t + 1, index, k);
    } else {
      var es := TxEntries(b, t, 0, index, 0);
      if k < |es| {
        TxEntriesCorrect(b, t, 0, index, 0, k);
      } else {
        AdvanceIndexAdds(index, |es|);
        EntriesCorrect(b, t + 1, index + |es|, k - |es|);
      }
    }
  }

  /** IndexBlock lists exactly the accepted messages, in block order, with gap-free eth
      indices from 0 and with gas accumulated within the transaction. */
  lemma EntriesExact(b: Block)
    ensures Ordered(Entries(b))
    ensures forall t, m :: InBlock(b, t, m) ==>
              exists k :: 0 <= k < |Entries(b)| && Entries(b)[k].t == t && Entries(b)[k].m == m
    ensures forall k :: 0 <= k < |Entries(b)| && k < TWO_31 ==> EntryCorrect(b, Entries(b)[k], k)
  {
    hide EntriesFrom, EntryCorrect, InBlock;
    EntriesOrdered(b, 0, 0);
    forall t: nat, m: nat | InBlock(b, t, m)
      ensures exists k :: 0 <= k < |Entries(b)| && Entries(b)[k].t == t && Entries(b)[k].m == m
    {
      var k := EntriesComplete(b, 0, 0, t, m);
      assert Entries(b)[k].t == t && Entries(b)[k].m == m;
    }
    forall k | 0 <= k < |Entries(b)| && k < TWO_31 ensures EntryCorrect(b, Entries(b)[k], k) {
      EntriesCorrect(b, 0, 0, k);
    }
  }

  // ---- The same in terms of the block alone ----

  function SumMsgGas(msgs: seq<EthMsg>): (gas: nat) {
    if msgs == [] then 0 else SumMsgGas(msgs[..|msgs| - 1]) + msgs[|msgs| - 1].gas
  }

  function SumParsedGas(parsed: seq<ParsedTx>): (gas: nat) {
    if parsed == [] then 0 else SumParsedGas(parsed[..|parsed| - 1]) + parsed[|parsed| - 1].gasUsed
  }

  /** The transaction was executed, or failed as expected, is an Ethereum transaction, and its
      events parse; of an executed one, message `m` has an event. */
  predicate HasRecord(b: Block, t: nat, m: nat) {
    && t < |b.txs| && b.txs[t].code in {CodeOk, ExpectedFailure}
    && b.txs[t].decoded.Some?
    && var tx := b.txs[t].decoded.value;
       tx.isEth && tx.parsed.Some? && m < |tx.msgs| && (b.txs[t].code == CodeOk ==> m < |tx.parsed.value|)
  }

  /** An executed message has the gas and flag of its event; one of a failed transaction is marked
      failed and charged its gas limit. Gas adds up over the messages of the transaction so far. */
  predicate RecordMeans(b: Block, e: Entry) {
    && HasRecord(b, e.t, e.m)
    && var code, tx := b.txs[e.t].code, b.txs[e.t].decoded.value;
       && e.hash == tx.msgs[e.m].hash && e.result.height == b.height
       && (code == ExpectedFailure ==>
             && e.result.failed && e.result.gasUsed == tx.msgs[e.m].gas
             && e.result.cumulativeGasUsed == SumMsgGas(tx.msgs[..e.m + 1]) % TWO_64)
       && (code == CodeOk ==>
             && e.result.failed == tx.parsed.value[e.m].failed && e.result.gasUsed == tx.parsed.value[e.m].gasUsed
             && e.result.cumulativeGasUsed == SumParsedGas(tx.parsed.value[..e.m + 1]) % TWO_64)
  }

  lemma {:induction false} GasBelowSums(tx: BlockTx, m: nat)
    requires Indexable(tx) && m <= |tx.decoded.value.msgs|
    requires tx.code == CodeOk ==> m <= |tx.decoded.value.parsed.value|
    ensures GasBelow(tx, m) == if tx.code == CodeOk then SumParsedGas(tx.decoded.value.parsed.value[..m])
                               else SumMsgGas(tx.decoded.value.msgs[..m])
  {
    if m == 0 {
    } else {
      GasBelowSums(tx, m - 1);
      if tx.code == CodeOk {
        assert tx.decoded.value.parsed.value[..m][..m - 1] == tx.decoded.value.parsed.value[..m - 1];
      } else {
        assert tx.decoded.value.msgs[..m][..m - 1] == tx.decoded.value.msgs[..m - 1];
      }
    }
  }

  lemma EntryMeans(b: Block, e: Entry, k: nat)
    requires EntryCorrect(b, e, k)
    ensures RecordMeans(b, e)
  {
    hide GasBelow, SumMsgGas, SumParsedGas;
    GasBelowSums(b.txs[e.t], e.m + 1);
  }

  /** The entries of a block are the records of exactly the messages that have one, numbered in
      block order from 0, each saying what the block says. */
  lemma EntriesMean(b: Block)
    ensures forall k :: 0 <= k < |Entries(b)| && k < TWO_31 ==>
              RecordMeans(b, Entries(b)[k]) && Entries(b)[k].result.ethTxIndex == k
    ensures forall k :: 0 <= k < |Entries(b)| ==> HasRecord(b, Entries(b)[k].t, Entries(b)[k].m)
    ensures forall t, m :: HasRecord(b, t, m) ==>
              exists k :: 0 <= k < |Entries(b)| && Entries(b)[k].t == t && Entries(b)[k].m == m
    ensures Ordered(Entries(b))
  {
    hide Entries, Ordered, RecordMeans;
    EntriesExact(b);
    forall k | 0 <= k < |Entries(b)| && k < TWO_31
      ensures RecordMeans(b, Entries(b)[k]) && Entries(b)[k].result.ethTxIndex == k
    {
      EntryMeans(b, Entries(b)[k], k);
    }
    forall k | 0 <= k < |Entries(b)| ensures HasRecord(b, Entries(b)[k].t, Entries(b)[k].m) {
      EntryInBlock(b, k);
    }
    forall t: nat, m: nat | HasRecord(b, t, m)
      ensures exists k :: 0 <= k < |Entries(b)| && Entries(b)[k].t == t && Entries(b)[k].m == m
    {
      assert InBlock(b, t, m);
    }
  }

  lemma EntryInBlock(b: Block, k: nat)
    requires k < |Entries(b)|
    ensures HasRecord(b, Entries(b)[k].t, Entries(b)[k].m)
  {
    EntriesInBlock(b, 0, 0, k);
  }

  lemma {:induction false} EntriesInBlock(b: Block, t: nat, index: int32, k: nat)
    requires t <= |b.txs| && k < |EntriesFrom(b, t, index)|
    ensures var e := EntriesFrom(b, t, index)[k]; HasRecord(b, e.t, e.m)
    decreases |b.txs| - t
  {
    hide TxEntries, HasRecord;
    if !Indexable(b.txs[t]) {
      EntriesInBlock(b, t + 1, index, k);
    } else {
      var es := TxEntries(b, t, 0, index, 0);
      if k < |es| {
        TxEntriesInBlock(b, t, 0, index, 0, k);
      } else {
        EntriesInBlock(b, t + 1, AdvanceIndex(index, |es|), k - |es|);
      }
    }
  }

  lemma {:induction false} TxEntriesInBlock(b: Block, t: nat, m: nat, index: int32, gas: uint64, k: nat)
    requires t < |b.txs| && Indexable(b.txs[t]) && m <= |b.txs[t].decoded.value.msgs|
    requires k < |TxEntries(b, t, m, index, gas)|
    ensures var e := TxEntries(b, t, m, index, gas)[k]; HasRecord(b, e.t, e.m)
    decreases |b.txs[t].decoded.value.msgs| - m
  {
    hide GasUsed, HasFailed;
    var tx := b.txs[t];
    if !Accepted(tx, m) {
      TxEntriesInBlock(b, t, m + 1, index, gas, k);
    } else if k > 0 {
      TxEntriesInBlock(b, t, m + 1, NextInt32(index), (gas + GasUsed(tx, m)) % TWO_64, k - 1);
    }
  }

  // ------------------------------------------------------------------
  // The store after indexing
  // ------------------------------------------------------------------

  function Record(m: TxResult): (bz: Bytes) {
    EncodedFields(Words(m), 0);
    Encode(m)
  }

  function IndexKeyOf(e: Entry): (key: Bytes) {
    TxIndexKey(e.result.height, e.result.ethTxIndex)
  }

  /** saveTxResult */
  function Put(db: Db, e: Entry): (r: Db) {
    db[TxHashKey(e.hash) := Record(e.result)][IndexKeyOf(e) := e.hash]
  }

  function PutAll(db: Db, es: seq<Entry>): (r: Db) {
    if es == [] then db else Put(PutAll(db, es[..|es| - 1]), es[|es| - 1])
  }

  lemma {:induction false} PutAllOver(db: Db, es: seq<Entry>)
    ensures db + PutAll(map[], es) == PutAll(db, es)
  {
    if es == [] {
    } else {
      PutAllOver(db, es[..|es| - 1]);
    }
  }

  predicate IsKeyOf(key: Bytes, e: Entry) {
    key == TxHashKey(e.hash) || key == IndexKeyOf(e)
  }

  /** Both tables hold the entry and point at each other. */
  predicate Stored(db: Db, e: Entry) {
    && TxHashKey(e.hash) in db && db[TxHashKey(e.hash)] == Record(e.result)
    && IndexKeyOf(e) in db && db[IndexKeyOf(e)] == e.hash
  }

  ghost predicate Separate(e: Entry, e': Entry) {
    forall key :: !(IsKeyOf(key, e) && IsKeyOf(key, e'))
  }

  lemma SeparateEntries(e: Entry, e': Entry)
    requires e.hash != e'.hash
    requires (e.result.height, e.result.ethTxIndex) != (e'.result.height, e'.result.ethTxIndex)
    ensures Separate(e, e')
  {
    HashKeysApart(e.hash, e'.hash, e'.result.height, e'.result.ethTxIndex);
    HashKeysApart(e'.hash, e.hash, e.result.height, e.result.ethTxIndex);
    KeysDistinct(e.result.height, e.result.ethTxIndex, e'.result.height, e'.result.ethTxIndex);
  }

  predicate SameAt(db: Db, db': Db, key: Bytes) {
    (key in db' <==> key in db) && (key in db ==> db'[key] == db[key])
  }

  lemma PutStores(db: Db, e: Entry)
    ensures Stored(Put(db, e), e)
    ensures forall key :: !IsKeyOf(key, e) ==> SameAt(db, Put(db, e), key)
  {
    hide TxHashKey, TxIndexKey, Record;
    HashKeysApart(e.hash, e.hash, e.result.height, e.result.ethTxIndex);
  }

  lemma {:induction false} PutAllElsewhere(db: Db, es: seq<Entry>, key: Bytes)
    requires forall i :: 0 <= i < |es| ==> !IsKeyOf(key, es[i])
    ensures SameAt(db, PutAll(db, es), key)
  {
    hide IsKeyOf, Put;
    if es == [] {
    } else {
      var last := |es| - 1;
      PutAllElsewhere(db, es[..last], key);
      PutStores(PutAll(db, es[..last]), es[last]);
      assert !IsKeyOf(key, es[last]);
    }
  }

  lemma StoredKept(db: Db, db': Db, e: Entry)
    requires Stored(db, e) && SameAt(db, db', TxHashKey(e.hash)) && SameAt(db, db', IndexKeyOf(e))
    ensures Stored(db', e)
  {
    hide TxHashKey, IndexKeyOf, Record;
  }

  lemma OwnKeys(e: Entry)
    ensures IsKeyOf(TxHashKey(e.hash), e) && IsKeyOf(IndexKeyOf(e), e)
  {
  }

  lemma {:induction false} PutAllStores(db: Db, es: seq<Entry>, i: nat)
    requires i < |es| && forall i, j :: 0 <= i < j < |es| ==> Separate(es[i], es[j])
    ensures Stored(PutAll(db, es), es[i])
  {
    hide Put, Stored, IsKeyOf, SameAt;
    var last := |es| - 1;
    var before := PutAll(db, es[..last]);
    PutStores(before, es[last]);
    if i < last {
      PutAllStores(db, es[..last], i);
      OwnKeys(es[i]);
      assert Separate(es[i], es[last]);
      StoredKept(before, Put(before, es[last]), es[i]);
    }
  }

  // ------------------------------------------------------------------
  // Agreement with the chain
  // ------------------------------------------------------------------

  type Chain = map<int64, Block>

  predicate HasEntry(chain: Chain, h: int64, k: nat) {
    h in chain && k < |Entries(chain[h])|
  }

  function EntryAt(chain: Chain, h: int64, k: nat): (e: Entry)
    requires HasEntry(chain, h, k)
  {
    Entries(chain[h])[k]
  }

  /** One block per height, with no more messages than an int32 can count. */
  predicate BlocksOk(chain: Chain) {
    forall h :: h in chain ==> h >= 0 && chain[h].height == h && |Entries(chain[h])| <= TWO_31
  }

  ghost predicate HashesUnique(chain: Chain) {
    forall h, k, h', k' ::
      HasEntry(chain, h, k) && HasEntry(chain, h', k') && (h, k) != (h', k') ==>
        EntryAt(chain, h, k).hash != EntryAt(chain, h', k').hash
  }

  ghost predicate ChainOk(chain: Chain) {
    BlocksOk(chain) && HashesUnique(chain)
  }

  ghost predicate Owned(chain: Chain, done: set<int64>, key: Bytes) {
    exists h, k :: h in done && HasEntry(chain, h, k) && IsKeyOf(key, EntryAt(chain, h, k))
  }

  /** The store holds the entries of the blocks in `done`, and nothing else. */
  ghost predicate Agrees(db: Db, chain: Chain, done: set<int64>) {
    && done <= chain.Keys
    && (forall h, k :: h in done && HasEntry(chain, h, k) ==> Stored(db, EntryAt(chain, h, k)))
    && (forall key :: key in db ==> Owned(chain, done, key))
  }

  lemma EntryPlace(chain: Chain, h: int64, k: nat)
    requires BlocksOk(chain) && HasEntry(chain, h, k)
    ensures EntryAt(chain, h, k).result.height == h && EntryAt(chain, h, k).result.ethTxIndex == k
    ensures EntryCorrect(chain[h], EntryAt(chain, h, k), k)
  {
    hide Entries;
    EntriesExact(chain[h]);
  }

  lemma EntriesSeparate(chain: Chain, h: int64, k: nat, h': int64, k': nat)
    requires ChainOk(chain) && HasEntry(chain, h, k) && HasEntry(chain, h', k') && (h, k) != (h', k')
    ensures Separate(EntryAt(chain, h, k), EntryAt(chain, h', k'))
  {
    hide Separate, HasEntry, EntryAt;
    EntryPlace(chain, h, k);
    EntryPlace(chain, h', k');
    SeparateEntries(EntryAt(chain, h, k), EntryAt(chain, h', k'));
  }

  lemma BlockStored(db: Db, chain: Chain, h: int64, k: nat)
    requires ChainOk(chain) && HasEntry(chain, h, k)
    ensures Stored(PutAll(db, Entries(chain[h])), EntryAt(chain, h, k))
  {
    hide Entries, Stored, ChainOk;
    var es := Entries(chain[h]);
    forall i, j | 0 <= i < j < |es| ensures Separate(es[i], es[j]) {
      EntriesSeparate(chain, h, i, h, j);
    }
    PutAllStores(db, es, k);
  }

  lemma ElsewhereUntouched(db: Db, chain: Chain, h: int64, key: Bytes)
    requires h in chain && !Owned(chain, {h}, key)
    ensures SameAt(db, PutAll(db, Entries(chain[h])), key)
  {
    hide Entries, SameAt, IsKeyOf;
    var es := Entries(chain[h]);
    forall i | 0 <= i < |es| ensures !IsKeyOf(key, es[i]) {
      assert HasEntry(chain, h, i) && EntryAt(chain, h, i) == es[i];
    }
    PutAllElsewhere(db, es, key);
  }

  lemma KeysNotOwned(chain: Chain, h: int64, h': int64, k': nat, key: Bytes)
    requires ChainOk(chain) && h != h' && HasEntry(chain, h', k') && IsKeyOf(key, EntryAt(chain, h', k'))
    ensures !Owned(chain, {h}, key)
  {
    hide Entries, HasEntry, EntryAt, ChainOk, IsKeyOf;
    if Owned(chain, {h}, key) {
      var k: nat :| HasEntry(chain, h, k) && IsKeyOf(key, EntryAt(chain, h, k));
      EntriesSeparate(chain, h, k, h', k');
    }
  }

  lemma OtherBlockKept(db: Db, chain: Chain, h: int64, h': int64, k: nat)
    requires ChainOk(chain) && h in chain && h != h' && HasEntry(chain, h', k)
    requires Stored(db, EntryAt(chain, h', k))
    ensures Stored(PutAll(db, Entries(chain[h])), EntryAt(chain, h', k))
  {
    hide PutAll, Entries, HasEntry, EntryAt, IsKeyOf, ChainOk, Stored;
    var e := EntryAt(chain, h', k);
    OwnKeys(e);
    KeysNotOwned(chain, h, h', k, TxHashKey(e.hash));
    KeysNotOwned(chain, h, h', k, IndexKeyOf(e));
    ElsewhereUntouched(db, chain, h, TxHashKey(e.hash));
    ElsewhereUntouched(db, chain, h, IndexKeyOf(e));
    StoredKept(db, PutAll(db, Entries(chain[h])), e);
  }

  lemma OwnedMore(chain: Chain, done: set<int64>, more: set<int64>, key: Bytes)
    requires Owned(chain, done, key) && done <= more
    ensures Owned(chain, more, key)
  {
    hide HasEntry, EntryAt, IsKeyOf;
  }

  /** Indexing a block adds its height to the agreement. */
  lemma IndexKeepsAgreement(db: Db, chain: Chain, done: set<int64>, h: int64)
    requires ChainOk(chain) && Agrees(db, chain, done) && h in chain
    ensures Agrees(PutAll(db, Entries(chain[h])), chain, done + {h})
  {
    hide PutAll, Entries, HasEntry, EntryAt, IsKeyOf, ChainOk, Owned, Stored;
    var db' := PutAll(db, Entries(chain[h]));
    forall h', k | h' in done + {h} && HasEntry(chain, h', k) ensures Stored(db', EntryAt(chain, h', k)) {
      if h' == h {
        BlockStored(db, chain, h, k);
      } else {
        OtherBlockKept(db, chain, h, h', k);
      }
    }
    forall key | key in db' ensures Owned(chain, done + {h}, key) {
      if Owned(chain, {h}, key) {
        OwnedMore(chain, {h}, done + {h}, key);
      } else {
        ElsewhereUntouched(db, chain, h, key);
        OwnedMore(chain, done, done + {h}, key);
      }
    }
  }

  lemma StoredDetermines(db: Db, db': Db, e: Entry, key: Bytes)
    requires Stored(db, e) && Stored(db', e) && IsKeyOf(key, e)
    ensures key in db && key in db' && db'[key] == db[key]
  {
    hide TxHashKey, IndexKeyOf, Record;
  }

  lemma AgreedValue(db: Db, db': Db, chain: Chain, done: set<int64>, key: Bytes)
    requires Agrees(db, chain, done) && Agrees(db', chain, done) && key in db
    ensures key in db' && db'[key] == db[key]
  {
    hide HasEntry, EntryAt, IsKeyOf, Stored;
    assert Owned(chain, done, key);
    var h, k :| h in done && HasEntry(chain, h, k) && IsKeyOf(key, EntryAt(chain, h, k));
    StoredDetermines(db, db', EntryAt(chain, h, k), key);
  }

  /** The agreed store is unique. */
  lemma AgreementUnique(db: Db, db': Db, chain: Chain, done: set<int64>)
    requires Agrees(db, chain, done) && Agrees(db', chain, done)
    ensures db == db'
  {
    hide Agrees;
    forall key | key in db ensures key in db' && db'[key] == db[key] {
      AgreedValue(db, db', chain, done, key);
    }
    forall key | key in db' ensures key in db {
      AgreedValue(db', db, chain, done, key);
    }
  }

  function Run(db: Db, chain: Chain, heights: seq<int64>): (r: Db)
    requires forall h :: h in heights ==> h in chain
  {
    if heights == [] then db
    else PutAll(Run(db, chain, heights[..|heights| - 1]), Entries(chain[heights[|heights| - 1]]))
  }

  function HeightSet(heights: seq<int64>): (r: set<int64>) { set h | h in heights }

  lemma LastHeight(heights: seq<int64>)
    requires heights != []
    ensures var last := |heights| - 1; HeightSet(heights) == HeightSet(heights[..last]) + {heights[last]}
  {
    var last := |heights| - 1;
    assert heights == heights[..last] + [heights[last]];
  }

  /** Any sequence of IndexBlock calls adds its set of heights to the agreement. */
  lemma {:induction false} RunKeepsAgreement(db: Db, chain: Chain, done: set<int64>, heights: seq<int64>)
    requires ChainOk(chain) && Agrees(db, chain, done) && forall h :: h in heights ==> h in chain
    ensures Agrees(Run(db, chain, heights), chain, done + HeightSet(heights))
  {
    hide ChainOk, Agrees, PutAll, Entries;
    if heights == [] {
      assert HeightSet(heights) == {};
      assert done + {} == done;
    } else {
      var before, last := heights[..|heights| - 1], heights[|heights| - 1];
      RunKeepsAgreement(db, chain, done, before);
      IndexKeepsAgreement(Run(db, chain, before), chain, done + HeightSet(before), last);
      LastHeight(heights);
      assert done + HeightSet(heights) == done + HeightSet(before) + {last};
    }
  }

  /** So any sequence of calls, in any order and with repetitions, ends in the store determined
      by the set of heights alone. */
  lemma RunAgrees(chain: Chain, heights: seq<int64>)
    requires ChainOk(chain) && forall h :: h in heights ==> h in chain
    ensures Agrees(Run(map[], chain, heights), chain, HeightSet(heights))
  {
    hide ChainOk, Agrees, Run;
    EmptyAgrees(chain);
    RunKeepsAgreement(map[], chain, {}, heights);
    assert {} + HeightSet(heights) == HeightSet(heights);
  }

  lemma EmptyAgrees(chain: Chain)
    ensures Agrees(map[], chain, {})
  {
  }

  lemma ReindexIdempotent(db: Db, chain: Chain, done: set<int64>, h: int64)
    requires ChainOk(chain) && Agrees(db, chain, done) && h in done
    ensures PutAll(db, Entries(chain[h])) == db
  {
    hide ChainOk, PutAll, Entries;
    IndexKeepsAgreement(db, chain, done, h);
    assert done + {h} == done;
    AgreementUnique(db, PutAll(db, Entries(chain[h])), chain, done);
  }

  // ------------------------------------------------------------------
  // Lookups
  // ------------------------------------------------------------------

  datatype Lookup = Found(result: TxResult) | NotFound | Corrupt(err: Error)

  /** common.BytesToHash: the last 32 bytes, padded with zeros on the left. */
  function BytesToHash(bz: Bytes): (hash: Hash) {
    if |bz| > 32 then bz[|bz| - 32..] else seq(32 - |bz|, _ => 0) + bz
  }

  /** Aligned at the end, cut or padded with zeros at the front. */
  lemma BytesToHashAligned(bz: Bytes, k: nat)
    requires k < 32
    ensures BytesToHash(bz)[31 - k] == if k < |bz| then bz[|bz| - 1 - k] else 0
  {
  }

  function LookupHash(db: Db, hash: Hash): (r: Lookup) {
    var key := TxHashKey(hash);
    if key !in db || db[key] == [] then NotFound
    else
      var decoded := Decode(db[key], 0, EMPTY);
      if decoded.err.Some? then Corrupt(decoded.err.value) else Found(decoded.m)
  }

  function LookupIndex(db: Db, height: int64, index: int32): (r: Lookup) {
    var key := TxIndexKey(height, index);
    if key !in db || db[key] == [] then NotFound else LookupHash(db, BytesToHash(db[key]))
  }

  lemma LookupStored(db: Db, e: Entry)
    requires Stored(db, e)
    ensures LookupHash(db, e.hash) == if e.result == EMPTY then NotFound else Found(e.result)
    ensures LookupIndex(db, e.result.height, e.result.ethTxIndex) == LookupHash(db, e.hash)
  {
    hide TxHashKey, TxIndexKey, Decode, Encode;
    EncodesEmpty(e.result);
    RoundTrip(e.result);
    assert seq(0, _ => 0) + e.hash == e.hash;
    assert BytesToHash(e.hash) == e.hash;
  }

  lemma IndexKeyOwner(db: Db, chain: Chain, done: set<int64>, height: int64, index: int32)
    requires BlocksOk(chain) && Agrees(db, chain, done) && TxIndexKey(height, index) in db
    ensures height in done && index >= 0 && HasEntry(chain, height, index)
  {
    hide HasEntry, EntryAt, TxIndexKey, TxHashKey, Stored;
    var key := TxIndexKey(height, index);
    assert Owned(chain, done, key);
    var h, k :| h in done && HasEntry(chain, h, k) && IsKeyOf(key, EntryAt(chain, h, k));
    EntryPlace(chain, h, k);
    HashKeysApart(EntryAt(chain, h, k).hash, EntryAt(chain, h, k).hash, height, index);
    KeysDistinct(height, index, h, EntryAt(chain, h, k).result.ethTxIndex);
  }

  lemma HashKeyOwner(db: Db, chain: Chain, done: set<int64>, hash: Hash) returns (h: int64, k: nat)
    requires Agrees(db, chain, done) && TxHashKey(hash) in db
    ensures h in done && HasEntry(chain, h, k) && EntryAt(chain, h, k).hash == hash
  {
    hide HasEntry, EntryAt, TxIndexKey, TxHashKey, Stored;
    var key := TxHashKey(hash);
    assert Owned(chain, done, key);
    h, k :| h in done && HasEntry(chain, h, k) && IsKeyOf(key, EntryAt(chain, h, k));
    var e := EntryAt(chain, h, k);
    HashKeysApart(hash, e.hash, e.result.height, e.result.ethTxIndex);
  }

  lemma RecordNotEmpty(chain: Chain, h: int64, k: nat)
    requires BlocksOk(chain) && HasEntry(chain, h, k) && h > 0
    ensures EntryAt(chain, h, k).result != EMPTY
  {
    EntryPlace(chain, h, k);
  }

  /** GetByBlockAndIndex returns the k-th accepted message of an indexed block and nothing for
      any other pair; the all-zero record, possible at height 0 only, reads as absent. */
  lemma IndexAgreement(db: Db, chain: Chain, done: set<int64>, height: int64, index: int32)
    requires BlocksOk(chain) && Agrees(db, chain, done)
    ensures LookupIndex(db, height, index) ==
            if height in done && index >= 0 && HasEntry(chain, height, index) &&
               EntryAt(chain, height, index).result != EMPTY
            then Found(EntryAt(chain, height, index).result)
            else NotFound
    ensures height > 0 && HasEntry(chain, height, if index >= 0 then index else 0) ==>
            EntryAt(chain, height, if index >= 0 then index else 0).result != EMPTY
  {
    hide HasEntry, EntryAt, TxIndexKey, Decode, Stored, BlocksOk, LookupHash;
    if height in done && index >= 0 && HasEntry(chain, height, index) {
      EntryPlace(chain, height, index);
      LookupStored(db, EntryAt(chain, height, index));
    } else if TxIndexKey(height, index) in db {
      IndexKeyOwner(db, chain, done, height, index);
    }
    var k := if index >= 0 then index else 0;
    if height > 0 && HasEntry(chain, height, k) {
      RecordNotEmpty(chain, height, k);
    }
  }

  /** GetByTxHash finds exactly the records of indexed messages. */
  lemma HashAgreement(db: Db, chain: Chain, done: set<int64>, hash: Hash)
    requires Agrees(db, chain, done)
    ensures forall r :: LookupHash(db, hash) == Found(r) <==>
              r != EMPTY && exists h, k :: h in done && HasEntry(chain, h, k)
                                           && EntryAt(chain, h, k).hash == hash && EntryAt(chain, h, k).result == r
    ensures !LookupHash(db, hash).Corrupt?
  {
    hide HasEntry, EntryAt, Decode, Stored;
    if TxHashKey(hash) in db {
      var h, k := HashKeyOwner(db, chain, done, hash);
      LookupStored(db, EntryAt(chain, h, k));
    }
    forall h, k | h in done && HasEntry(chain, h, k) && EntryAt(chain, h, k).hash == hash
      ensures LookupHash(db, hash) == var r := EntryAt(chain, h, k).result; if r == EMPTY then NotFound else Found(r)
    {
      LookupStored(db, EntryAt(chain, h, k));
    }
  }

  // ------------------------------------------------------------------
  // Repeated hashes: the last entry written answers
  // ------------------------------------------------------------------

  /** Every entry a run writes, in the order of writing. */
  function Written(chain: Chain, heights: seq<int64>): (es: seq<Entry>)
    requires forall h :: h in heights ==> h in chain
  {
    if heights == [] then []
    else Written(chain, heights[..|heights| - 1]) + Entries(chain[heights[|heights| - 1]])
  }

  function LastWith(es: seq<Entry>, hash: Hash): (r: Option<Entry>) {
    if es == [] then None
    else if es[|es| - 1].hash == hash then Some(es[|es| - 1])
    else LastWith(es[..|es| - 1], hash)
  }

  /** The answer of a lookup that meets this entry; the all-zero record reads as absent. */
  function Answer(e: Option<Entry>): (r: Lookup) {
    if e.None? || e.value.result == EMPTY then NotFound else Found(e.value.result)
  }

  lemma {:induction false} PutAllConcat(db: Db, es: seq<Entry>, es': seq<Entry>)
    ensures PutAll(db, es + es') == PutAll(PutAll(db, es), es')
    decreases |es'|
  {
    hide Put;
    if es' == [] {
      assert es + es' == es;
    } else {
      var last := |es'| - 1;
      PutAllConcat(db, es, es'[..last]);
      assert (es + es')[..|es + es'| - 1] == es + es'[..last];
    }
  }

  lemma {:induction false} RunWrites(chain: Chain, heights: seq<int64>)
    requires forall h :: h in heights ==> h in chain
    ensures Run(map[], chain, heights) == PutAll(map[], Written(chain, heights))
  {
    hide Entries;
    if heights == [] {
    } else {
      var before := heights[..|heights| - 1];
      RunWrites(chain, before);
      PutAllConcat(map[], Written(chain, before), Entries(chain[heights[|heights| - 1]]));
    }
  }

  /** The hash table holds the record of the last entry written with the hash. */
  lemma {:induction false} LastRecordStays(es: seq<Entry>, hash: Hash)
    ensures var key, last := TxHashKey(hash), LastWith(es, hash);
            && (key in PutAll(map[], es) <==> last.Some?)
            && (last.Some? ==> last.value.hash == hash && PutAll(map[], es)[key] == Record(last.value.result))
  {
    hide TxHashKey, TxIndexKey, Record;
    if es == [] {
    } else {
      var e := es[|es| - 1];
      LastRecordStays(es[..|es| - 1], hash);
      HashKeysApart(hash, e.hash, e.result.height, e.result.ethTxIndex);
    }
  }

  lemma HashAnswer(es: seq<Entry>, hash: Hash)
    ensures LookupHash(PutAll(map[], es), hash) == Answer(LastWith(es, hash))
  {
    hide TxHashKey, Decode, Encode, PutAll, LastWith;
    LastRecordStays(es, hash);
    var last := LastWith(es, hash);
    if last.Some? {
      EncodesEmpty(last.value.result);
      RoundTrip(last.value.result);
    }
  }

  /** The index table holds the hash of the last entry written at the height and index. */
  lemma {:induction false} IndexedHash(es: seq<Entry>, e: Entry)
    requires forall i :: 0 <= i < |es| && IndexKeyOf(es[i]) == IndexKeyOf(e) ==> es[i].hash == e.hash
    ensures var key := IndexKeyOf(e);
            && (key in PutAll(map[], es) <==> exists i :: 0 <= i < |es| && IndexKeyOf(es[i]) == key)
            && (key in PutAll(map[], es) ==> PutAll(map[], es)[key] == e.hash)
  {
    hide TxHashKey, IndexKeyOf, Record;
    if es == [] {
    } else {
      var last := |es| - 1;
      IndexedHash(es[..last], e);
      HashAndIndexApart(es[last].hash, e);
      if i :| 0 <= i < |es| && IndexKeyOf(es[i]) == IndexKeyOf(e) && i < last {
        assert IndexKeyOf(es[..last][i]) == IndexKeyOf(e);
      }
    }
  }

  lemma HashAndIndexApart(hash: Hash, e: Entry)
    ensures TxHashKey(hash) != IndexKeyOf(e)
  {
    HashKeysApart(hash, hash, e.result.height, e.result.ethTxIndex);
  }

  lemma {:induction false} WrittenPlace(chain: Chain, heights: seq<int64>, i: nat) returns (h: int64, k: nat)
    requires (forall h :: h in heights ==> h in chain) && i < |Written(chain, heights)|
    ensures h in heights && HasEntry(chain, h, k) && Written(chain, heights)[i] == EntryAt(chain, h, k)
    decreases |heights|
  {
    hide Entries;
    var before := heights[..|heights| - 1];
    var n := |Written(chain, before)|;
    if i < n {
      h, k := WrittenPlace(chain, before, i);
    } else {
      h, k := heights[|heights| - 1], i - n;
    }
  }

  lemma {:induction false} PlaceWritten(chain: Chain, heights: seq<int64>, h: int64, k: nat) returns (i: nat)
    requires (forall h :: h in heights ==> h in chain) && h in heights && HasEntry(chain, h, k)
    ensures i < |Written(chain, heights)| && Written(chain, heights)[i] == EntryAt(chain, h, k)
    decreases |heights|
  {
    hide Entries;
    var before := heights[..|heights| - 1];
    if h == heights[|heights| - 1] {
      i := |Written(chain, before)| + k;
    } else {
      i := PlaceWritten(chain, before, h, k);
    }
  }

  lemma SamePlace(chain: Chain, e: Entry, h: int64, k: nat, h': int64, k': nat)
    requires BlocksOk(chain) && HasEntry(chain, h, k) && HasEntry(chain, h', k')
    requires e == EntryAt(chain, h', k')
    ensures IndexKeyOf(e) == IndexKeyOf(EntryAt(chain, h, k)) <==> (h, k) == (h', k')
    ensures e.result == EntryAt(chain, h, k).result <==> (h, k) == (h', k')
  {
    hide BlocksOk, HasEntry, EntryAt, TxIndexKey;
    EntryPlace(chain, h, k);
    EntryPlace(chain, h', k');
    KeysDistinct(h, EntryAt(chain, h, k).result.ethTxIndex, h', e.result.ethTxIndex);
  }

  lemma {:induction false} LastWithIn(es: seq<Entry>, hash: Hash) returns (i: nat)
    requires LastWith(es, hash).Some?
    ensures i < |es| && LastWith(es, hash).value == es[i]
  {
    i := |es| - 1;
    if es[i].hash != hash {
      i := LastWithIn(es[..|es| - 1], hash);
    }
  }

  /** After any run over any blocks, GetByTxHash answers with the record of the last entry
      written with the hash, and with nothing when there is none. */
  lemma HashLookup(chain: Chain, heights: seq<int64>, hash: Hash)
    requires forall h :: h in heights ==> h in chain
    ensures LookupHash(Run(map[], chain, heights), hash) == Answer(LastWith(Written(chain, heights), hash))
  {
    hide LookupHash, Answer, LastWith;
    RunWrites(chain, heights);
    HashAnswer(Written(chain, heights), hash);
  }

  /** GetByBlockAndIndex then answers with the last entry that shares the hash of message k, so
      it is right exactly when no other message with that hash was written after it. */
  lemma IndexLookup(chain: Chain, heights: seq<int64>, h: int64, k: nat)
    requires BlocksOk(chain) && (forall h :: h in heights ==> h in chain)
    requires h in heights && HasEntry(chain, h, k)
    ensures k < TWO_31
    ensures var e, r := EntryAt(chain, h, k), LookupIndex(Run(map[], chain, heights), h, k);
            var last := LastWith(Written(chain, heights), e.hash);
            && last.Some? && r == Answer(last)
            && (r == Answer(Some(e)) <==> last == Some(e))
  {
    hide BlocksOk, HasEntry, EntryAt, TxIndexKey, LookupHash, LastWith, Run;
    var es, e := Written(chain, heights), EntryAt(chain, h, k);
    EntryPlace(chain, h, k);
    forall i | 0 <= i < |es| && IndexKeyOf(es[i]) == IndexKeyOf(e) ensures es[i].hash == e.hash {
      var h', k' := WrittenPlace(chain, heights, i);
      SamePlace(chain, es[i], h, k, h', k');
    }
    var at := PlaceWritten(chain, heights, h, k);
    assert IndexKeyOf(es[at]) == IndexKeyOf(e);
    IndexedHash(es, e);
    RunWrites(chain, heights);
    HashLookup(chain, heights, e.hash);
    WholeHash(e.hash);
    LastWithPresent(es, at);
    var i := LastWithIn(es, e.hash);
    var h', k' := WrittenPlace(chain, heights, i);
    SamePlace(chain, es[i], h, k, h', k');
  }

  /** Any other height and index is not found. */
  lemma IndexLookupAbsent(chain: Chain, heights: seq<int64>, height: int64, index: int32)
    requires BlocksOk(chain) && (forall h :: h in heights ==> h in chain)
    requires height !in heights || index < 0 || !HasEntry(chain, height, index)
    ensures LookupIndex(Run(map[], chain, heights), height, index) == NotFound
  {
    hide BlocksOk, HasEntry, EntryAt, TxIndexKey, TxHashKey, Run, PutAll;
    var es, key := Written(chain, heights), TxIndexKey(height, index);
    forall i | 0 <= i < |es| ensures !IsKeyOf(key, es[i]) {
      var h, k := WrittenPlace(chain, heights, i);
      EntryPlace(chain, h, k);
      HashKeysApart(es[i].hash, es[i].hash, height, index);
      KeysDistinct(height, index, h, es[i].result.ethTxIndex);
    }
    PutAllElsewhere(map[], es, key);
    RunWrites(chain, heights);
  }

  lemma WholeHash(hash: Hash)
    ensures BytesToHash(hash) == hash && hash != []
  {
    assert seq(0, _ => 0) + hash == hash;
  }

  lemma {:induction false} LastWithPresent(es: seq<Entry>, i: nat)
    requires i < |es|
    ensures LastWith(es, es[i].hash).Some?
  {
    if es[|es| - 1].hash != es[i].hash {
      LastWithPresent(es[..|es| - 1], i);
    }
  }

  // ------------------------------------------------------------------
  // Unique hashes are needed
  // ------------------------------------------------------------------

  lemma SharedHashSharesRecord(db: Db, e: Entry, e': Entry)
    requires Stored(db, e) && Stored(db, e') && e.hash == e'.hash
    ensures e.result == e'.result
  {
    hide TxHashKey, TxIndexKey, Decode, Encode;
    RoundTrip(e.result);
    RoundTrip(e'.result);
  }

  lemma AgreementNeedsUnique(db: Db, chain: Chain)
    requires BlocksOk(chain) && Agrees(db, chain, chain.Keys)
    ensures HashesUnique(chain)
  {
    hide BlocksOk, EntryAt, Stored;
    forall h, k, h', k' | HasEntry(chain, h, k) && HasEntry(chain, h', k') && (h, k) != (h', k')
      ensures EntryAt(chain, h, k).hash != EntryAt(chain, h', k').hash
    {
      EntryPlace(chain, h, k);
      EntryPlace(chain, h', k');
      if EntryAt(chain, h, k).hash == EntryAt(chain, h', k').hash {
        SharedHashSharesRecord(db, EntryAt(chain, h, k), EntryAt(chain, h', k'));
      }
    }
  }

  /** A run over the blocks of a chain ends in agreement with all of them if and only if no two
      messages share a hash. */
  lemma {:induction false} AgreementExact(chain: Chain, heights: seq<int64>)
    requires BlocksOk(chain) && HeightSet(heights) == chain.Keys
    ensures (forall h :: h in heights ==> h in chain)
         && (Agrees(Run(map[], chain, heights), chain, chain.Keys) <==> HashesUnique(chain))
  {
    hide BlocksOk, HashesUnique, Agrees, Run;
    forall h | h in heights ensures h in chain {
      assert h in HeightSet(heights);
    }
    if HashesUnique(chain) {
      RunAgrees(chain, heights);
    }
    if Agrees(Run(map[], chain, heights), chain, chain.Keys) {
      AgreementNeedsUnique(Run(map[], chain, heights), chain);
    }
  }

  /** A block with one failed transaction of one message. */
  function OneMessage(height: int64, hash: Hash): (b: Block) {
    Block(height, [BlockTx(ExpectedFailure, Some(Tx(true, [EthMsg(hash, 0)], Some([]))))])
  }

  /** One hash in two blocks: asked for message 0 of block 1, the store answers with block 2. */
  lemma RepeatedHashDisagrees(hash: Hash)
    ensures var chain := map[1 := OneMessage(1, hash), 2 := OneMessage(2, hash)];
            && BlocksOk(chain) && !Agrees(Run(map[], chain, [1, 2]), chain, chain.Keys)
            && HasEntry(chain, 1, 0)
            && LookupIndex(Run(map[], chain, [1, 2]), 1, 0).Found?
            && LookupIndex(Run(map[], chain, [1, 2]), 1, 0).result.height == 2
  {
    var chain: Chain := map[1 := OneMessage(1, hash), 2 := OneMessage(2, hash)];
    OneMessageEntry(1, hash);
    OneMessageEntry(2, hash);
    assert BlocksOk(chain);
    assert !HashesUnique(chain) by {
      assert HasEntry(chain, 1, 0) && HasEntry(chain, 2, 0);
    }
    assert HeightSet([1, 2]) == chain.Keys;
    AgreementExact(chain, [1, 2]);
    LastOfTwo(chain, hash);
    IndexLookup(chain, [1, 2], 1, 0);
    EntryPlace(chain, 2, 0);
  }

  lemma LastOfTwo(chain: Chain, hash: Hash)
    requires 1 in chain && 2 in chain
    requires |Entries(chain[1])| == 1 && |Entries(chain[2])| == 1 && Entries(chain[2])[0].hash == hash
    ensures LastWith(Written(chain, [1, 2]), hash) == Some(EntryAt(chain, 2, 0))
  {
    assert [1, 2][..1] == [1];
    assert Written(chain, [1, 2]) == Written(chain, [1]) + Entries(chain[2]);
  }

  lemma OneMessageEntry(height: int64, hash: Hash)
    ensures |Entries(OneMessage(height, hash))| == 1 && Entries(OneMessage(height, hash))[0].hash == hash
  {
    var b := OneMessage(height, hash);
    assert TxEntries(b, 0, 1, 1, 0) == [];
    assert EntriesFrom(b, 1, 1) == [];
  }

  // ------------------------------------------------------------------
  // First and last indexed block
  // ------------------------------------------------------------------

  ghost predicate IsLastKey(db: Db, key: Bytes) {
    key in db && InIndexRange(key) && forall k :: k in db && InIndexRange(k) && k != key ==> BytesLess(k, key)
  }

  ghost predicate IsFirstKey(db: Db, key: Bytes) {
    key in db && InIndexRange(key) && forall k :: k in db && InIndexRange(k) && k != key ==> BytesLess(key, k)
  }

  ghost predicate NoIndexKey(db: Db) {
    forall k :: k in db ==> !InIndexRange(k)
  }

  /** A stored message at height `h`. */
  ghost predicate Recorded(chain: Chain, done: set<int64>, h: int64) {
    h in done && HasEntry(chain, h, 0)
  }

  ghost predicate IndexOwned(chain: Chain, done: set<int64>, key: Bytes) {
    exists h, k :: h in done && HasEntry(chain, h, k) && key == IndexKeyOf(EntryAt(chain, h, k))
  }

  /** The index table lists the messages of the blocks in `done`, and no others, whatever their
      hashes are. */
  ghost predicate Tabled(db: Db, chain: Chain, done: set<int64>) {
    && done <= chain.Keys
    && (forall h, k :: h in done && HasEntry(chain, h, k) ==> IndexKeyOf(EntryAt(chain, h, k)) in db)
    && (forall key :: key in db && InIndexRange(key) ==> IndexOwned(chain, done, key))
  }

  lemma EntryKeyRange(e: Entry)
    ensures InIndexRange(IndexKeyOf(e)) && !InIndexRange(TxHashKey(e.hash))
  {
    hide InIndexRange;
    IndexRange(IndexKeyOf(e));
    IndexRange(TxHashKey(e.hash));
  }

  lemma StoredHasKey(db: Db, e: Entry)
    requires Stored(db, e)
    ensures IndexKeyOf(e) in db
  {
  }

  lemma AgreesTabled(db: Db, chain: Chain, done: set<int64>)
    requires Agrees(db, chain, done)
    ensures Tabled(db, chain, done)
  {
    hide HasEntry, EntryAt, InIndexRange, IndexKeyOf, TxHashKey, Stored;
    forall h, k | h in done && HasEntry(chain, h, k) ensures IndexKeyOf(EntryAt(chain, h, k)) in db {
      StoredHasKey(db, EntryAt(chain, h, k));
    }
    forall key | key in db && InIndexRange(key) ensures IndexOwned(chain, done, key) {
      assert Owned(chain, done, key);
      var h, k :| h in done && HasEntry(chain, h, k) && IsKeyOf(key, EntryAt(chain, h, k));
      EntryKeyRange(EntryAt(chain, h, k));
    }
  }

  lemma {:induction false} PutAllKeys(db: Db, es: seq<Entry>, key: Bytes)
    ensures key in PutAll(db, es) <==> key in db || exists i :: 0 <= i < |es| && IsKeyOf(key, es[i])
  {
    hide TxHashKey, IndexKeyOf, Record;
    if es == [] {
    } else {
      var last := |es| - 1;
      PutAllKeys(db, es[..last], key);
      assert key in PutAll(db, es) <==> key in PutAll(db, es[..last]) || IsKeyOf(key, es[last]);
      if i :| 0 <= i < |es| && IsKeyOf(key, es[i]) && i < last {
        assert IsKeyOf(key, es[..last][i]);
      }
    }
  }

  lemma BlockKeys(db: Db, chain: Chain, h: int64, key: Bytes)
    requires h in chain
    ensures key in PutAll(db, Entries(chain[h])) <==>
            key in db || exists k :: HasEntry(chain, h, k) && IsKeyOf(key, EntryAt(chain, h, k))
  {
    hide PutAll, Entries, IsKeyOf;
    var es := Entries(chain[h]);
    PutAllKeys(db, es, key);
    if i :| 0 <= i < |es| && IsKeyOf(key, es[i]) {
      assert HasEntry(chain, h, i) && EntryAt(chain, h, i) == es[i];
    }
  }

  /** Indexing a block adds its height to the table. */
  lemma IndexKeepsTable(db: Db, chain: Chain, done: set<int64>, h: int64)
    requires Tabled(db, chain, done) && h in chain
    ensures Tabled(PutAll(db, Entries(chain[h])), chain, done + {h})
  {
    hide PutAll, Entries, HasEntry, EntryAt, InIndexRange, IndexKeyOf, TxHashKey;
    var db' := PutAll(db, Entries(chain[h]));
    forall h', k | h' in done + {h} && HasEntry(chain, h', k) ensures IndexKeyOf(EntryAt(chain, h', k)) in db' {
      BlockKeys(db, chain, h, IndexKeyOf(EntryAt(chain, h', k)));
    }
    forall key | key in db' && InIndexRange(key) ensures IndexOwned(chain, done + {h}, key) {
      BlockKeys(db, chain, h, key);
      if k :| HasEntry(chain, h, k) && IsKeyOf(key, EntryAt(chain, h, k)) {
        EntryKeyRange(EntryAt(chain, h, k));
      } else {
        assert IndexOwned(chain, done, key);
      }
    }
  }

  lemma {:induction false} RunKeepsTable(db: Db, chain: Chain, done: set<int64>, heights: seq<int64>)
    requires Tabled(db, chain, done) && forall h :: h in heights ==> h in chain
    ensures Tabled(Run(db, chain, heights), chain, done + HeightSet(heights))
  {
    hide Tabled, PutAll, Entries;
    if heights == [] {
      assert HeightSet(heights) == {};
      assert done + {} == done;
    } else {
      var before, last := heights[..|heights| - 1], heights[|heights| - 1];
      RunKeepsTable(db, chain, done, before);
      IndexKeepsTable(Run(db, chain, before), chain, done + HeightSet(before), last);
      LastHeight(heights);
      assert done + HeightSet(heights) == done + HeightSet(before) + {last};
    }
  }

  lemma RangeKeyIsIndexKey(db: Db, chain: Chain, done: set<int64>, key: Bytes) returns (h: int64, k: nat)
    requires BlocksOk(chain) && Tabled(db, chain, done) && key in db && InIndexRange(key)
    ensures h in done && HasEntry(chain, h, k) && k < TWO_31 && key == TxIndexKey(h, k) && h >= 0
  {
    hide HasEntry, EntryAt, TxIndexKey, InIndexRange;
    assert IndexOwned(chain, done, key);
    h, k :| h in done && HasEntry(chain, h, k) && key == IndexKeyOf(EntryAt(chain, h, k));
    EntryPlace(chain, h, k);
  }

  lemma RecordedHasKey(db: Db, chain: Chain, done: set<int64>, h: int64)
    requires BlocksOk(chain) && Tabled(db, chain, done) && Recorded(chain, done, h)
    ensures TxIndexKey(h, 0) in db && InIndexRange(TxIndexKey(h, 0))
  {
    hide HasEntry, EntryAt, InIndexRange, BlocksOk, TxIndexKey;
    EntryPlace(chain, h, 0);
    EntryKeyRange(EntryAt(chain, h, 0));
  }

  lemma EntryMeansRecorded(chain: Chain, done: set<int64>, h: int64, k: nat)
    requires h in done && HasEntry(chain, h, k)
    ensures Recorded(chain, done, h)
  {
  }

  /** The greatest index key carries the greatest height with a stored message. */
  lemma LastKeyIsMax(db: Db, chain: Chain, done: set<int64>, key: Bytes)
    requires BlocksOk(chain) && Tabled(db, chain, done) && IsLastKey(db, key)
    ensures exists h :: Recorded(chain, done, h) && ParseBlockNumberFromKey(key) == Some(h)
                        && forall h' :: Recorded(chain, done, h') ==> h' <= h
  {
    hide HasEntry, EntryAt, InIndexRange, BlocksOk, TxIndexKey, Tabled, ParseBlockNumberFromKey;
    var h, k := RangeKeyIsIndexKey(db, chain, done, key);
    EntryMeansRecorded(chain, done, h, k);
    HeightOfKey(h, k);
    forall h' | Recorded(chain, done, h') ensures h' <= h {
      RecordedHasKey(db, chain, done, h');
      var h'', k'' := RangeKeyIsIndexKey(db, chain, done, TxIndexKey(h', 0));
      KeysDistinct(h', 0, h'', k'');
      KeysDistinct(h', 0, h, k);
      IndexKeyOrder(h', 0, h, k);
    }
  }

  lemma FirstKeyIsMin(db: Db, chain: Chain, done: set<int64>, key: Bytes)
    requires BlocksOk(chain) && Tabled(db, chain, done) && IsFirstKey(db, key)
    ensures exists h :: Recorded(chain, done, h) && ParseBlockNumberFromKey(key) == Some(h)
                        && forall h' :: Recorded(chain, done, h') ==> h <= h'
  {
    hide HasEntry, EntryAt, InIndexRange, BlocksOk, TxIndexKey, Tabled, ParseBlockNumberFromKey;
    var h, k := RangeKeyIsIndexKey(db, chain, done, key);
    EntryMeansRecorded(chain, done, h, k);
    HeightOfKey(h, k);
    forall h' | Recorded(chain, done, h') ensures h <= h' {
      RecordedHasKey(db, chain, done, h');
      var h'', k'' := RangeKeyIsIndexKey(db, chain, done, TxIndexKey(h', 0));
      KeysDistinct(h', 0, h'', k'');
      KeysDistinct(h', 0, h, k);
      IndexKeyOrder(h, k, h', 0);
    }
  }

  lemma NoKeyNothingRecorded(db: Db, chain: Chain, done: set<int64>)
    requires BlocksOk(chain) && Tabled(db, chain, done)
    ensures NoIndexKey(db) <==> forall h :: !Recorded(chain, done, h)
  {
    hide HasEntry, EntryAt, InIndexRange, BlocksOk, TxIndexKey, Tabled;
    if h :| Recorded(chain, done, h) {
      RecordedHasKey(db, chain, done, h);
    }
    if key :| key in db && InIndexRange(key) {
      var h, k := RangeKeyIsIndexKey(db, chain, done, key);
      EntryMeansRecorded(chain, done, h, k);
    }
  }

  // ------------------------------------------------------------------
  // The code
  // ------------------------------------------------------------------

  /** The store's forward iterator over the index range, at its first key. */
  method FirstKey(db: Db) returns (r: Option<Bytes>)
    ensures r.None? <==> NoIndexKey(db)
    ensures r.Some? ==> IsFirstKey(db, r.value)
  {
    hide InIndexRange, BytesLess;
    r := None;
    var left := db.Keys;
    while left != {}
      invariant left <= db.Keys
      invariant r.None? ==> forall k :: k in db.Keys - left ==> !InIndexRange(k)
      invariant r.Some? ==> r.value in db && InIndexRange(r.value)
      invariant r.Some? ==> forall k :: k in db.Keys - left && InIndexRange(k) && k != r.value ==> BytesLess(r.value, k)
      decreases left
    {
      var key :| key in left;
      if InIndexRange(key) && (r.None? || BytesLess(key, r.value)) {
        if r.Some? {
          forall k | k in db.Keys - left && InIndexRange(k) && k != r.value ensures BytesLess(key, k) {
            BytesTransitive(key, r.value, k);
          }
        }
        r := Some(key);
      } else if InIndexRange(key) {
        BytesTotal(key, r.value);
      }
      left := left - {key};
    }
  }

  /** The store's reverse iterator over the index range, at its first key. */
  method LastKey(db: Db) returns (r: Option<Bytes>)
    ensures r.None? <==> NoIndexKey(db)
    ensures r.Some? ==> IsLastKey(db, r.value)
  {
    hide InIndexRange, BytesLess;
    r := None;
    var left := db.Keys;
    while left != {}
      invariant left <= db.Keys
      invariant r.None? ==> forall k :: k in db.Keys - left ==> !InIndexRange(k)
      invariant r.Some? ==> r.value in db && InIndexRange(r.value)
      invariant r.Some? ==> forall k :: k in db.Keys - left && InIndexRange(k) && k != r.value ==> BytesLess(k, r.value)
      decreases left
    {
      var key :| key in left;
      if InIndexRange(key) && (r.None? || BytesLess(r.value, key)) {
        if r.Some? {
          forall k | k in db.Keys - left && InIndexRange(k) && k != r.value ensures BytesLess(k, key) {
            BytesTransitive(k, r.value, key);
          }
        }
        r := Some(key);
      } else if InIndexRange(key) {
        BytesTotal(key, r.value);
      }
      left := left - {key};
    }
  }

  class KVIndexer {
    var db: Db

    constructor ()
      ensures db == map[]
    {
      db := map[];
    }

    /** `writeOk` is the outcome of writing the batch, which is atomic. */
    method IndexBlock(block: Block, writeOk: bool) returns (ok: bool)
      modifies this
      ensures ok == writeOk
      ensures db == if writeOk then PutAll(old(db), Entries(block)) else old(db)
    {
      hide Put, GasUsed, HasFailed;
      var batch: Db := map[];
      ghost var saved: seq<Entry> := [];
      var ethTxIndex: int32 := 0;
      for txIndex := 0 to |block.txs|
        invariant db == old(db)
        invariant batch == PutAll(map[], saved)
        invariant saved + EntriesFrom(block, txIndex, ethTxIndex) == Entries(block)
      {
        var tx := block.txs[txIndex];
        if tx.code == OtherFailure {
          continue;
        }
        if tx.decoded.None? {
          continue;
        }
        if !tx.decoded.value.isEth {
          continue;
        }
        if tx.decoded.value.parsed.None? {
          continue;
        }
        ghost var before := saved;
        ghost var mine := TxEntries(block, txIndex, 0, ethTxIndex, 0);
        ghost var rest := EntriesFrom(block, txIndex + 1, AdvanceIndex(ethTxIndex, |mine|));
        batch, ethTxIndex, saved := IndexTx(block, txIndex, batch, ethTxIndex, saved);
        assert saved == before + mine;
        assert before + (mine + rest) == (before + mine) + rest;
      }
      assert saved + [] == saved;
      if !writeOk {
        return false;
      }
      PutAllOver(db, saved);
      db := db + batch;
      return true;
    }

    /** The loop over the messages of one transaction. */
    static method IndexTx(block: Block, txIndex: nat, batch0: Db, index0: int32, ghost saved0: seq<Entry>)
      returns (batch: Db, ethTxIndex: int32, ghost saved: seq<Entry>)
      requires txIndex < |block.txs| && Indexable(block.txs[txIndex]) && batch0 == PutAll(map[], saved0)
      ensures saved == saved0 + TxEntries(block, txIndex, 0, index0, 0)
      ensures batch == PutAll(map[], saved)
      ensures ethTxIndex == AdvanceIndex(index0, |TxEntries(block, txIndex, 0, index0, 0)|)
    {
      hide Put;
      batch, ethTxIndex, saved := batch0, index0, saved0;
      ghost var mine := TxEntries(block, txIndex, 0, index0, 0);
      var tx := block.txs[txIndex];
      var msgs := tx.decoded.value.msgs;
      var cumulativeGasUsed: uint64 := 0;
      for msgIndex := 0 to |msgs|
        invariant batch == PutAll(map[], saved)
        invariant saved + TxEntries(block, txIndex, msgIndex, ethTxIndex, cumulativeGasUsed) == saved0 + mine
        invariant AdvanceIndex(ethTxIndex, |TxEntries(block, txIndex, msgIndex, ethTxIndex, cumulativeGasUsed)|)
               == AdvanceIndex(index0, |mine|)
      {
        var gasUsed: uint64, failed;
        if tx.code != CodeOk {
          gasUsed, failed := msgs[msgIndex].gas, true;
        } else {
          if msgIndex >= |tx.decoded.value.parsed.value| {
            continue;
          }
          var parsedTx := tx.decoded.value.parsed.value[msgIndex];
          gasUsed, failed := parsedTx.gasUsed, parsedTx.failed;
        }
        cumulativeGasUsed := (cumulativeGasUsed + gasUsed) % TWO_64;
        var result := TxResult(block.height, txIndex % TWO_32, msgIndex % TWO_32, ethTxIndex,
                               failed, gasUsed, cumulativeGasUsed);
        ethTxIndex := NextInt32(ethTxIndex);
        var entry := Entry(txIndex, msgIndex, msgs[msgIndex].hash, result);
        batch := Put(batch, entry);
        assert (saved + [entry])[..|saved|] == saved;
        ghost var rest := TxEntries(block, txIndex, msgIndex + 1, ethTxIndex, cumulativeGasUsed);
        assert saved + ([entry] + rest) == (saved + [entry]) + rest;
        saved := saved + [entry];
      }
      assert saved + [] == saved;
    }

    method GetByTxHash(hash: Hash) returns (r: Lookup)
      ensures r == LookupHash(db, hash)
    {
      var key := TxHashKey(hash);
      if key !in db || |db[key]| == 0 {
        return NotFound;
      }
      var txKey := new Message(EMPTY);
      var err := txKey.Unmarshal(db[key]);
      if err.Some? {
        return Corrupt(err.value);
      }
      return Found(txKey.Value());
    }

    method GetByBlockAndIndex(blockNumber: int64, txIndex: int32) returns (r: Lookup)
      ensures r == LookupIndex(db, blockNumber, txIndex)
    {
      var key := TxIndexKey(blockNumber, txIndex);
      if key !in db || |db[key]| == 0 {
        return NotFound;
      }
      r := GetByTxHash(BytesToHash(db[key]));
    }

    /** -1 when the store holds no index key, None when the key found is malformed. */
    method LastIndexedBlock() returns (r: Option<int64>)
      ensures NoIndexKey(db) ==> r == Some(-1)
      ensures !NoIndexKey(db) ==> exists key :: IsLastKey(db, key) && r == ParseBlockNumberFromKey(key)
    {
      var key := LastKey(db);
      if key.None? {
        return Some(-1);
      }
      return ParseBlockNumberFromKey(key.value);
    }

    method FirstIndexedBlock() returns (r: Option<int64>)
      ensures NoIndexKey(db) ==> r == Some(-1)
      ensures !NoIndexKey(db) ==> exists key :: IsFirstKey(db, key) && r == ParseBlockNumberFromKey(key)
    {
      var key := FirstKey(db);
      if key.None? {
        return Some(-1);
      }
      return ParseBlockNumberFromKey(key.value);
    }
  }
}
