/** The offline `index-eth-tx` command (server/indexer_cmd.go): its backward and forward runs
    leave no gap in the index, wherever they stop. */
module IndexerCmd {
  import opened Numbers
  import opened Wrappers
  import opened IndexKeys
  import opened KvIndexer

  /** The local node: its blocks, its head, the heights whose block and results can be loaded,
      and the heights whose batch can be written. */
  datatype Node = Node(chain: Chain, head: int64, loadable: set<int64>, writable: set<int64>) {
    ghost predicate Valid() {
      && BlocksOk(chain) && loadable <= chain.Keys
      && 0 <= head < TWO_63 - 1 && forall h :: h in chain ==> h <= head
    }
  }

  /** Block and results of the height load, and its batch is written. */
  predicate CanIndex(node: Node, h: int64) {
    h in node.loadable && h in node.writable
  }

  /** Every height with an eth message between two recorded heights is recorded. */
  ghost predicate GapFree(chain: Chain, done: set<int64>) {
    forall lo: int64, h: int64, hi: int64 ::
      Recorded(chain, done, lo) && Recorded(chain, done, hi) && lo <= h <= hi && HasEntry(chain, h, 0) ==>
        Recorded(chain, done, h)
  }

  /** The heights strictly between two bounds. */
  function Between(lo: int64, hi: int64): (r: set<int64>)
    ensures forall i :: i in r <==> lo < i < hi
    decreases if lo < hi then hi - lo else 0
  {
    if lo + 1 >= hi then {} else Between(lo, hi - 1) + {hi - 1}
  }

  /** The heights strictly between two bounds in the order of the backward run. */
  function Downward(hi: int64, lo: int64): (r: seq<int64>)
    ensures HeightSet(r) == Between(lo, hi)
    decreases if lo < hi then hi - lo else 0
  {
    if lo + 1 >= hi then [] else var r := Downward(hi, lo + 1); r + [lo + 1]
  }

  /** The heights strictly between two bounds in the order of the forward run. */
  function Upward(lo: int64, hi: int64): (r: seq<int64>)
    ensures HeightSet(r) == Between(lo, hi)
    decreases if lo < hi then hi - lo else 0
  {
    if lo + 1 >= hi then [] else var r := Upward(lo, hi - 1); r + [hi - 1]
  }

  /** The blocks of these heights were indexed, in this order. */
  ghost predicate Ran(db: Db, db': Db, chain: Chain, heights: seq<int64>) {
    (forall h :: h in heights ==> h in chain) && db' == Run(db, chain, heights)
  }

  lemma RanOnce(db: Db, db': Db, chain: Chain, heights: seq<int64>, h: int64)
    requires Ran(db, db', chain, heights) && h in chain
    ensures Ran(db, PutAll(db', Entries(chain[h])), chain, heights + [h])
  {
    hide PutAll, Entries;
    assert (heights + [h])[..|heights|] == heights;
  }

  /** A run extends the table, and with unique hashes the agreement, by its heights. */
  lemma RanKeeps(db: Db, db': Db, chain: Chain, done: set<int64>, heights: seq<int64>)
    requires Ran(db, db', chain, heights) && Tabled(db, chain, done)
    ensures Tabled(db', chain, done + HeightSet(heights))
    ensures ChainOk(chain) && Agrees(db, chain, done) ==> Agrees(db', chain, done + HeightSet(heights))
  {
    hide Tabled, Agrees, ChainOk, Run, HeightSet;
    RunKeepsTable(db, chain, done, heights);
    if ChainOk(chain) && Agrees(db, chain, done) {
      RunKeepsAgreement(db, chain, done, heights);
    }
  }

  /** The backward run starts below the first recorded height, or below the head. */
  ghost predicate StartsBackward(node: Node, done: set<int64>, first: int64) {
    if exists h :: Recorded(node.chain, done, h)
    then Recorded(node.chain, done, first) && forall h: int64 :: Recorded(node.chain, done, h) ==> first <= h
    else first == node.head
  }

  /** The forward run starts above the last recorded height, or at height 1. */
  ghost predicate StartsForward(node: Node, done: set<int64>, latest: int64) {
    if exists h :: Recorded(node.chain, done, h)
    then Recorded(node.chain, done, latest) && forall h: int64 :: Recorded(node.chain, done, h) ==> h <= latest
    else latest == 0
  }

  lemma BackwardGapFree(node: Node, done: set<int64>, first: int64, stop: int64)
    requires GapFree(node.chain, done) && StartsBackward(node, done, first)
    ensures GapFree(node.chain, done + Between(stop, first))
  {
    hide HasEntry;
    var done' := done + Between(stop, first);
    forall lo: int64, h: int64, hi: int64 |
      Recorded(node.chain, done', lo) && Recorded(node.chain, done', hi) && lo <= h <= hi && HasEntry(node.chain, h, 0)
      ensures Recorded(node.chain, done', h)
    {
      assert lo in Between(stop, first) || Recorded(node.chain, done, lo);
      assert hi in Between(stop, first) || Recorded(node.chain, done, hi);
      if h !in Between(stop, first) && h >= first {
        assert Recorded(node.chain, done, h);
      }
    }
  }

  lemma ForwardGapFree(node: Node, done: set<int64>, latest: int64, stop: int64)
    requires GapFree(node.chain, done) && StartsForward(node, done, latest)
    ensures GapFree(node.chain, done + Between(latest, stop))
  {
    hide HasEntry;
    var done' := done + Between(latest, stop);
    forall lo: int64, h: int64, hi: int64 |
      Recorded(node.chain, done', lo) && Recorded(node.chain, done', hi) && lo <= h <= hi && HasEntry(node.chain, h, 0)
      ensures Recorded(node.chain, done', h)
    {
      assert lo in Between(latest, stop) || Recorded(node.chain, done, lo);
      assert hi in Between(latest, stop) || Recorded(node.chain, done, hi);
      if h !in Between(latest, stop) && h <= latest {
        assert Recorded(node.chain, done, h);
      }
    }
  }

  method IndexHeight(kv: KVIndexer, node: Node, height: int64) returns (ok: bool)
    requires node.Valid()
    modifies kv
    ensures ok == CanIndex(node, height)
    ensures ok ==> height in node.chain
    ensures kv.db == if ok then PutAll(old(kv.db), Entries(node.chain[height])) else old(kv.db)
  {
    hide PutAll, Entries, BlocksOk;
    if height !in node.loadable {
      return false;
    }
    ok := kv.IndexBlock(node.chain[height], height in node.writable);
  }

  /** Indexes the heights below `first` down to 1; `stop` is the first height that failed, 0 if
      none did. The run succeeds exactly when no height below `first` fails. */
  method Backward(kv: KVIndexer, node: Node, ghost done: set<int64>)
    returns (ok: bool, ghost first: int64, ghost stop: int64)
    requires node.Valid() && Tabled(kv.db, node.chain, done) && GapFree(node.chain, done)
    modifies kv
    ensures StartsBackward(node, done, first)
    ensures if ok then stop == 0 else 0 < stop < first && !CanIndex(node, stop)
    ensures forall h: int64 :: stop < h < first ==> CanIndex(node, h)
    ensures ok <==> forall h: int64 :: 0 < h < first ==> CanIndex(node, h)
    ensures Ran(old(kv.db), kv.db, node.chain, Downward(first, stop))
    ensures Tabled(kv.db, node.chain, done + Between(stop, first))
    ensures ChainOk(node.chain) && Agrees(old(kv.db), node.chain, done) ==>
              Agrees(kv.db, node.chain, done + Between(stop, first))
    ensures GapFree(node.chain, done + Between(stop, first))
  {
    hide Tabled, Agrees, GapFree, StartsBackward, ParseBlockNumberFromKey, IsFirstKey, NoIndexKey, Ran, ChainOk,
         BlocksOk, PutAll, Entries;
    var found := kv.FirstIndexedBlock();
    FirstOrHead(kv.db, node, done, found);
    var start := if found.value == -1 then node.head else found.value;
    first, stop := start, 0;
    var i := start - 1;
    NothingRan(kv.db, node.chain);
    while i > 0
      invariant i < first && (i >= 0 || i == start - 1)
      invariant Ran(old(kv.db), kv.db, node.chain, Downward(first, i))
      invariant forall h: int64 :: i < h < first ==> CanIndex(node, h)
      decreases i
    {
      ghost var before := kv.db;
      ok := IndexHeight(kv, node, i);
      if !ok {
        stop := i;
        break;
      }
      RanOnce(old(kv.db), before, node.chain, Downward(first, i), i);
      i := i - 1;
    }
    ok := i <= 0;
    assert Downward(first, i) == Downward(first, stop);
    RanKeeps(old(kv.db), kv.db, node.chain, done, Downward(first, stop));
    BackwardGapFree(node, done, first, stop);
  }

  lemma NothingRan(db: Db, chain: Chain)
    ensures Ran(db, db, chain, [])
  {
  }

  lemma FirstOrHead(db: Db, node: Node, done: set<int64>, found: Option<int64>)
    requires node.Valid() && Tabled(db, node.chain, done)
    requires NoIndexKey(db) ==> found == Some(-1)
    requires !NoIndexKey(db) ==> exists key :: IsFirstKey(db, key) && found == ParseBlockNumberFromKey(key)
    ensures found.Some?
    ensures var start := if found.value == -1 then node.head else found.value;
            StartsBackward(node, done, start) && start >= 0
  {
    hide Tabled, HasEntry, ParseBlockNumberFromKey, IsFirstKey, NoIndexKey;
    NoKeyNothingRecorded(db, node.chain, done);
    if !NoIndexKey(db) {
      var key :| IsFirstKey(db, key) && found == ParseBlockNumberFromKey(key);
      FirstKeyIsMin(db, node.chain, done, key);
      RecordedNonNegative(node.chain, done, found.value);
    }
  }

  lemma LastOrZero(db: Db, node: Node, done: set<int64>, found: Option<int64>)
    requires node.Valid() && Tabled(db, node.chain, done)
    requires NoIndexKey(db) ==> found == Some(-1)
    requires !NoIndexKey(db) ==> exists key :: IsLastKey(db, key) && found == ParseBlockNumberFromKey(key)
    ensures found.Some?
    ensures var start := if found.value == -1 then 0 else found.value;
            StartsForward(node, done, start) && 0 <= start <= node.head
  {
    hide Tabled, HasEntry, ParseBlockNumberFromKey, IsLastKey, NoIndexKey;
    NoKeyNothingRecorded(db, node.chain, done);
    if !NoIndexKey(db) {
      var key :| IsLastKey(db, key) && found == ParseBlockNumberFromKey(key);
      LastKeyIsMax(db, node.chain, done, key);
      RecordedNonNegative(node.chain, done, found.value);
    }
  }

  lemma RecordedNonNegative(chain: Chain, done: set<int64>, h: int64)
    requires BlocksOk(chain) && Recorded(chain, done, h)
    ensures h >= 0 && h in chain
  {
  }

  /** Indexes the heights above `latest` up to the head; `stop` is the first height that failed,
      or one past the head. The run succeeds exactly when no height above `latest` fails. */
  method Forward(kv: KVIndexer, node: Node, ghost done: set<int64>)
    returns (ok: bool, ghost latest: int64, ghost stop: int64)
    requires node.Valid() && Tabled(kv.db, node.chain, done) && GapFree(node.chain, done)
    modifies kv
    ensures StartsForward(node, done, latest)
    ensures if ok then stop == node.head + 1 else latest < stop <= node.head && !CanIndex(node, stop)
    ensures forall h: int64 :: latest < h < stop ==> CanIndex(node, h)
    ensures ok <==> forall h: int64 :: latest < h <= node.head ==> CanIndex(node, h)
    ensures Ran(old(kv.db), kv.db, node.chain, Upward(latest, stop))
    ensures Tabled(kv.db, node.chain, done + Between(latest, stop))
    ensures ChainOk(node.chain) && Agrees(old(kv.db), node.chain, done) ==>
              Agrees(kv.db, node.chain, done + Between(latest, stop))
    ensures GapFree(node.chain, done + Between(latest, stop))
  {
    hide Tabled, Agrees, GapFree, StartsForward, ParseBlockNumberFromKey, IsLastKey, NoIndexKey, Ran, ChainOk,
         BlocksOk, PutAll, Entries;
    var found := kv.LastIndexedBlock();
    LastOrZero(kv.db, node, done, found);
    var start := if found.value == -1 then 0 else found.value;
    latest := start;
    var i := start + 1;
    NothingRan(kv.db, node.chain);
    ok := true;
    while i <= node.head
      invariant latest < i <= node.head + 1
      invariant Ran(old(kv.db), kv.db, node.chain, Upward(latest, i))
      invariant forall h: int64 :: latest < h < i ==> CanIndex(node, h)
      decreases node.head - i
    {
      ghost var before := kv.db;
      ok := IndexHeight(kv, node, i);
      if !ok {
        break;
      }
      RanOnce(old(kv.db), before, node.chain, Upward(latest, i), i);
      i := i + 1;
    }
    ok, stop := i > node.head, i;
    RanKeeps(old(kv.db), kv.db, node.chain, done, Upward(latest, stop));
    ForwardGapFree(node, done, latest, stop);
  }

  // ------------------------------------------------------------------
  // The backward run and the head
  // ------------------------------------------------------------------

  /** A backward run never records the head: it is recorded afterwards if and only if it was
      before, wherever the run stopped. */
  lemma BackwardLeavesHead(node: Node, done: set<int64>, first: int64, stop: int64)
    requires node.Valid() && StartsBackward(node, done, first)
    ensures Recorded(node.chain, done + Between(stop, first), node.head) <==> Recorded(node.chain, done, node.head)
  {
    hide HasEntry, BlocksOk;
    if exists h :: Recorded(node.chain, done, h) {
      RecordedNonNegative(node.chain, done, first);
    }
  }

  /** So from an empty index the head is left out although it can be indexed and has a message. */
  lemma BackwardMissesHead(hash: Hash, stop: int64)
    ensures var node := Node(map[1 := OneMessage(1, hash)], 1, {1}, {1});
            && node.Valid() && CanIndex(node, node.head) && HasEntry(node.chain, node.head, 0)
            && StartsBackward(node, {}, node.head)
            && !Recorded(node.chain, {} + Between(stop, node.head), node.head)
  {
    OneMessageEntry(1, hash);
  }
}
