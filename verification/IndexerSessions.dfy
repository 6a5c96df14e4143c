/** The live service over its key-value store (server/indexer_service.go, indexer/kv_indexer.go):
    sessions that start from the last indexed block of the store the one before left behind, and
    exactly when they keep the index free of gaps. */
module IndexerSessions {
  import opened Numbers
  import opened Wrappers
  import opened IndexKeys
  import opened KvIndexer
  import opened IndexerCmd
  import S = IndexerService

  /** A session up to any point at which the node may stop: the head at start-up and the steps. */
  datatype Session = Session(status: int, actions: seq<S.Action>)

  ghost predicate Reached(session: Session) {
    var start := S.Init(session.status);
    S.Exec(start, session.actions).Some? && S.HonestRun(start, session.actions)
  }

  function End(session: Session): (s: S.State)
    requires S.Exec(S.Init(session.status), session.actions).Some?
  {
    S.Exec(S.Init(session.status), session.actions).value
  }

  /** The blocks the service stored are blocks of the chain. */
  predicate OnChain(chain: Chain, attempts: seq<S.Attempt>) {
    forall k :: 0 <= k < |attempts| && attempts[k].outcome == S.Indexed ==> attempts[k].height in chain
  }

  /** The heights stored, in the order of storing. */
  function StoredHeights(chain: Chain, attempts: seq<S.Attempt>): (heights: seq<int64>)
    requires OnChain(chain, attempts)
    ensures forall h :: h in heights ==> h in chain
  {
    if attempts == [] then []
    else
      var last := |attempts| - 1;
      StoredHeights(chain, attempts[..last]) +
      if attempts[last].outcome == S.Indexed then [attempts[last].height] else []
  }

  lemma {:induction false} StoredExactly(chain: Chain, attempts: seq<S.Attempt>, h: int)
    requires OnChain(chain, attempts)
    ensures h in StoredHeights(chain, attempts) <==>
            exists k :: 0 <= k < |attempts| && attempts[k].outcome == S.Indexed && attempts[k].height == h
  {
    if attempts == [] {
    } else {
      var last := |attempts| - 1;
      StoredExactly(chain, attempts[..last], h);
      if k :| 0 <= k < |attempts| && attempts[k].outcome == S.Indexed && attempts[k].height == h && k < last {
        assert attempts[..last][k].outcome == S.Indexed && attempts[..last][k].height == h;
      }
    }
  }

  function Stored(chain: Chain, s: S.State): (heights: set<int64>)
    requires OnChain(chain, s.attempts)
  {
    HeightSet(StoredHeights(chain, s.attempts))
  }

  /** The set the service keeps track of is the set of heights written to the store. */
  lemma StoredIsIndexed(chain: Chain, s: S.State)
    requires OnChain(chain, s.attempts) && S.Consecutive(s)
    ensures forall h :: h in Stored(chain, s) <==> h in s.indexed
  {
    forall h ensures h in Stored(chain, s) <==> h in s.indexed {
      StoredExactly(chain, s.attempts, h);
      if h in s.indexed {
        assert s.attempts[h - s.start - 1].height == h;
      }
    }
  }

  // ------------------------------------------------------------------
  // One session
  // ------------------------------------------------------------------

  /** What LastIndexedBlock answers on this store. */
  ghost predicate CursorOf(db: Db, cursor: int) {
    if NoIndexKey(db) then cursor == -1
    else exists key, h :: IsLastKey(db, key) && ParseBlockNumberFromKey(key) == Some(h) && cursor == h
  }

  /** -1 for an index without messages, else the greatest height with a recorded message. */
  ghost predicate LastOf(chain: Chain, done: set<int64>, cursor: int) {
    if cursor == -1 then forall h :: !Recorded(chain, done, h)
    else exists c: int64 :: c == cursor && Recorded(chain, done, c) &&
                            forall h: int64 :: Recorded(chain, done, h) ==> h <= c
  }

  lemma CursorIsLast(db: Db, chain: Chain, done: set<int64>, cursor: int)
    requires BlocksOk(chain) && Tabled(db, chain, done) && CursorOf(db, cursor)
    ensures LastOf(chain, done, cursor)
  {
    hide Tabled, HasEntry, ParseBlockNumberFromKey, IsLastKey, NoIndexKey;
    NoKeyNothingRecorded(db, chain, done);
    if !NoIndexKey(db) {
      var key, h :| IsLastKey(db, key) && ParseBlockNumberFromKey(key) == Some(h) && cursor == h;
      LastKeyIsMax(db, chain, done, key);
      RecordedNonNegative(chain, done, h);
    }
  }

  /** A height the session passed by: jumped over at start-up, or its attempt failed. */
  ghost predicate PassedBy(s: S.State, h: int) {
    (s.cursor != -1 && s.cursor < h <= s.start) || S.AttemptFailed(s.attempts, h)
  }

  predicate HasStored(chain: Chain, stored: set<int64>, h: int64) {
    h in stored && HasEntry(chain, h, 0)
  }

  /** There is a recorded height below, from before or from this session. */
  ghost predicate RecordedBelow(chain: Chain, s: S.State, stored: set<int64>, h: int64) {
    s.cursor != -1 || exists lo: int64 :: lo < h && HasStored(chain, stored, lo)
  }

  /** No height with a message was passed by while one above it was stored. */
  ghost predicate LeavesNoGap(chain: Chain, s: S.State, stored: set<int64>) {
    forall h: int64, hi: int64 | HasStored(chain, stored, hi) && h < hi && HasEntry(chain, h, 0) ::
      !(PassedBy(s, h) && RecordedBelow(chain, s, stored, h))
  }

  /** Where the stored heights of a session lie, and which it passed by. */
  lemma SessionHeights(s: S.State, h: int)
    requires S.Consecutive(s) && (s.cursor == -1 || s.cursor <= s.start)
    ensures h in s.indexed ==> s.start < h <= s.last && !PassedBy(s, h)
    ensures s.start < h <= s.last && h !in s.indexed ==> PassedBy(s, h)
  {
    if s.start < h <= s.last {
      S.AttemptAt(s, h);
    }
  }

  lemma RecordedMore(chain: Chain, done: set<int64>, stored: set<int64>, h: int64)
    ensures Recorded(chain, done + stored, h) <==> Recorded(chain, done, h) || HasStored(chain, stored, h)
  {
    hide HasEntry;
  }

  lemma NotBefore(chain: Chain, done: set<int64>, cursor: int, h: int64)
    requires LastOf(chain, done, cursor) && (cursor == -1 || cursor < h)
    ensures !Recorded(chain, done, h)
  {
    hide Recorded;
  }

  lemma GapMeansLeft(chain: Chain, done: set<int64>, s: S.State, stored: set<int64>)
    requires S.Consecutive(s) && (s.cursor == -1 || s.cursor <= s.start)
    requires LastOf(chain, done, s.cursor) && (forall h :: h in stored <==> h in s.indexed)
    requires GapFree(chain, done + stored)
    ensures LeavesNoGap(chain, s, stored)
  {
    hide HasEntry, S.Consecutive, Recorded, PassedBy;
    forall h: int64, hi: int64 | HasStored(chain, stored, hi) && h < hi && HasEntry(chain, h, 0)
      ensures !(PassedBy(s, h) && RecordedBelow(chain, s, stored, h))
    {
      if PassedBy(s, h) && RecordedBelow(chain, s, stored, h) {
        var lo: int64;
        if s.cursor != -1 {
          lo :| lo == s.cursor && Recorded(chain, done, lo);
          PassedAbove(s, h);
        } else {
          lo :| lo < h && HasStored(chain, stored, lo);
        }
        RecordedMore(chain, done, stored, lo);
        RecordedMore(chain, done, stored, hi);
        RecordedMore(chain, done, stored, h);
        NotBefore(chain, done, s.cursor, h);
        SessionHeights(s, h);
      }
    }
  }

  lemma PassedAbove(s: S.State, h: int)
    requires S.Consecutive(s) && s.cursor <= s.start && s.cursor != -1 && PassedBy(s, h)
    ensures s.cursor < h
  {
    if S.AttemptFailed(s.attempts, h) {
      var k :| 0 <= k < |s.attempts| && s.attempts[k].height == h && s.attempts[k].outcome != S.Indexed;
    }
  }

  lemma NoneLeftMeansGapFree(chain: Chain, done: set<int64>, s: S.State, stored: set<int64>)
    requires S.Consecutive(s) && (s.cursor == -1 || s.cursor <= s.start)
    requires LastOf(chain, done, s.cursor) && (forall h :: h in stored <==> h in s.indexed)
    requires GapFree(chain, done) && LeavesNoGap(chain, s, stored)
    ensures GapFree(chain, done + stored)
  {
    hide HasEntry, S.Consecutive, Recorded, PassedBy;
    forall lo: int64, h: int64, hi: int64 |
      Recorded(chain, done + stored, lo) && Recorded(chain, done + stored, hi) && lo <= h <= hi && HasEntry(chain, h, 0)
      ensures Recorded(chain, done + stored, h)
    {
      RecordedMore(chain, done, stored, lo);
      RecordedMore(chain, done, stored, h);
      RecordedMore(chain, done, stored, hi);
      SessionHeights(s, lo);
      SessionHeights(s, h);
      SessionHeights(s, hi);
      if s.cursor != -1 && h <= s.cursor {
        var c: int64 :| c == s.cursor && Recorded(chain, done, c);
        assert Recorded(chain, done, h);
      } else if h !in stored {
        NotBefore(chain, done, s.cursor, hi);
        PassedBetween(s, lo, h, hi);
      } else {
        assert HasStored(chain, stored, h);
      }
    }
  }

  lemma PassedBetween(s: S.State, lo: int, h: int, hi: int)
    requires S.Consecutive(s) && lo <= h <= hi && h !in s.indexed && hi in s.indexed
    requires if s.cursor == -1 then lo in s.indexed else s.cursor < h && s.cursor <= s.start
    ensures PassedBy(s, h)
  {
    if h > s.start {
      S.AttemptAt(s, h);
    }
  }

  /** A session that began on this store: its cursor is the last indexed block, and what it
      stored are blocks of the chain. */
  ghost predicate SessionOn(db: Db, chain: Chain, session: Session) {
    && Reached(session) && OnChain(chain, End(session).attempts)
    && (S.Started(End(session)) ==> CursorOf(db, End(session).cursor))
  }

  lemma SessionState(session: Session)
    requires Reached(session)
    ensures var s := End(session);
            if S.Started(s) then S.Consecutive(s) && (s.cursor == -1 || s.cursor <= s.start) else s.attempts == []
  {
    hide S.Exec, S.HonestRun, S.Consecutive;
    S.CursorAlways(session.status, session.actions);
    S.StartExact(session.status, session.actions);
  }

  ghost predicate SessionLeavesNoGap(chain: Chain, session: Session)
    requires Reached(session) && OnChain(chain, End(session).attempts)
  {
    S.Started(End(session)) ==> LeavesNoGap(chain, End(session), Stored(chain, End(session)))
  }

  /** On a gap-free index a session keeps it gap-free if and only if it passed by no height with
      a message, by the jump or by a failed attempt, between recorded ones. */
  lemma SessionGapFree(db: Db, chain: Chain, done: set<int64>, session: Session)
    requires BlocksOk(chain) && Tabled(db, chain, done) && GapFree(chain, done) && SessionOn(db, chain, session)
    ensures GapFree(chain, done + Stored(chain, End(session))) <==> SessionLeavesNoGap(chain, session)
  {
    hide Tabled, GapFree, S.Exec, S.HonestRun, S.Consecutive, CursorOf, LastOf, LeavesNoGap, HeightSet;
    var s := End(session);
    var stored := Stored(chain, s);
    SessionState(session);
    if S.Started(s) {
      CursorIsLast(db, chain, done, s.cursor);
      StoredIsIndexed(chain, s);
      if GapFree(chain, done + stored) {
        GapMeansLeft(chain, done, s, stored);
      }
      if LeavesNoGap(chain, s, stored) {
        NoneLeftMeansGapFree(chain, done, s, stored);
      }
    } else {
      NothingStored(chain, s);
      assert done + stored == done;
    }
  }

  lemma NothingStored(chain: Chain, s: S.State)
    requires s.attempts == []
    ensures Stored(chain, s) == {}
  {
  }

  // ------------------------------------------------------------------
  // Restarts
  // ------------------------------------------------------------------

  predicate AllOnChain(chain: Chain, sessions: seq<Session>) {
    forall i :: 0 <= i < |sessions| ==>
      && S.Exec(S.Init(sessions[i].status), sessions[i].actions).Some?
      && OnChain(chain, End(sessions[i]).attempts)
  }

  /** The store the sessions leave behind. */
  function StoreAfter(db: Db, chain: Chain, sessions: seq<Session>): (r: Db)
    requires AllOnChain(chain, sessions)
  {
    if sessions == [] then db
    else
      var last := |sessions| - 1;
      Run(StoreAfter(db, chain, sessions[..last]), chain, StoredHeights(chain, End(sessions[last]).attempts))
  }

  function DoneAfter(chain: Chain, done: set<int64>, sessions: seq<Session>): (r: set<int64>)
    requires AllOnChain(chain, sessions)
  {
    if sessions == [] then done
    else var last := |sessions| - 1; DoneAfter(chain, done, sessions[..last]) + Stored(chain, End(sessions[last]))
  }

  /** Each session began on the store of the one before. */
  ghost predicate Restarts(db: Db, chain: Chain, sessions: seq<Session>)
    requires AllOnChain(chain, sessions)
  {
    sessions == [] ||
    var last := |sessions| - 1;
    && Restarts(db, chain, sessions[..last])
    && SessionOn(StoreAfter(db, chain, sessions[..last]), chain, sessions[last])
  }

  /** The index was gap-free after every session. */
  ghost predicate GapFreeThroughout(chain: Chain, done: set<int64>, sessions: seq<Session>)
    requires AllOnChain(chain, sessions)
  {
    && GapFree(chain, DoneAfter(chain, done, sessions))
    && (sessions == [] || GapFreeThroughout(chain, done, sessions[..|sessions| - 1]))
  }

  ghost predicate NoneLeavesGap(chain: Chain, sessions: seq<Session>)
    requires AllOnChain(chain, sessions)
  {
    forall i :: 0 <= i < |sessions| && Reached(sessions[i]) ==> SessionLeavesNoGap(chain, sessions[i])
  }

  lemma {:induction false} StoreTabled(db: Db, chain: Chain, done: set<int64>, sessions: seq<Session>)
    requires AllOnChain(chain, sessions) && Tabled(db, chain, done)
    ensures Tabled(StoreAfter(db, chain, sessions), chain, DoneAfter(chain, done, sessions))
  {
    hide Tabled, Run, HeightSet, OnChain;
    if sessions == [] {
    } else {
      var last := |sessions| - 1;
      StoreTabled(db, chain, done, sessions[..last]);
      RunKeepsTable(StoreAfter(db, chain, sessions[..last]), chain, DoneAfter(chain, done, sessions[..last]),
                    StoredHeights(chain, End(sessions[last]).attempts));
    }
  }

  /** Over any number of restarts from a gap-free store, the index is gap-free after every
      session if and only if no session leaves a gap. */
  lemma {:induction false} RestartsGapFree(db: Db, chain: Chain, done: set<int64>, sessions: seq<Session>)
    requires BlocksOk(chain) && Tabled(db, chain, done) && GapFree(chain, done)
    requires AllOnChain(chain, sessions) && Restarts(db, chain, sessions)
    ensures GapFreeThroughout(chain, done, sessions) <==> NoneLeavesGap(chain, sessions)
  {
    hide Tabled, GapFree, S.Exec, S.HonestRun, OnChain, SessionLeavesNoGap, StoreAfter, BlocksOk;
    if sessions == [] {
    } else {
      var last := |sessions| - 1;
      var before := sessions[..last];
      RestartsGapFree(db, chain, done, before);
      assert NoneLeavesGap(chain, sessions) <==>
             NoneLeavesGap(chain, before) && SessionLeavesNoGap(chain, sessions[last]);
      if GapFreeThroughout(chain, done, before) {
        StoreTabled(db, chain, done, before);
        SessionGapFree(StoreAfter(db, chain, before), chain, DoneAfter(chain, done, before), sessions[last]);
      }
    }
  }
}
