/** The account cleanup service, as its tests fix it: four scans of the account store in a
    fixed order (expired, one-week notice, one-month notice, unactivated), a deletion or
    a notice-then-flag per account, per-account failures caught and logged, and exactly one
    summary publish per run. The calendar cut-offs ("9 months ago" and so on), the HTTP
    callback, the deletion date formatting and the summary publish are inputs. */
module AccountCleanup {
  import opened Common
  import opened AuthUsers
  import opened AuthModuleLog
  import opened UserManagement

  const WEEK_NOTICE: string := "1-week-notice"
  const MONTH_NOTICE: string := "1-month-notice"

  /** The form posted to the notification callback: `Type`, `Username` and `Date`. */
  datatype Notice = Notice(kind: string, username: string, date: int)

  /** What the callback POST did: delivered, a client error (logged as a warning), or any
      other exception (logged as an alert). */
  datatype PostOutcome = Delivered | ClientError | OtherError

  /** Observable effects of one run, in order. */
  datatype Event =
    | Removed(id: UserId, reason: string, withLpas: bool)
    | NoticeSent(id: UserId, notice: Notice)
    | NoticeWarned(id: UserId, notice: Notice)
    | NoticeAlerted(id: UserId, notice: Notice)
    | SummaryPublished
    | SummaryAlerted

  predicate IsSummary(e: Event)
  {
    e.SummaryPublished? || e.SummaryAlerted?
  }

  /** The notice for one scanned account: its identity and its projected deletion date
      (`last_login` plus nine months, computed by `deletionDate`). */
  function NoticeFor(a: Account, kind: string, deletionDate: int -> int): Notice
  {
    Notice(kind, UsernameOf(a), deletionDate(if a.lastLogin.Some? then a.lastLogin.value.at else 0))
  }

  function NoticeEvent(id: UserId, n: Notice, outcome: PostOutcome): Event
  {
    match outcome
    case Delivered => NoticeSent(id, n)
    case ClientError => NoticeWarned(id, n)
    case OtherError => NoticeAlerted(id, n)
  }

  /** `delivered` holds exactly those targets whose notice the callback accepted. */
  ghost predicate DeliveredAmong(delivered: set<UserId>, targets: Store, kind: string, post: Notice -> PostOutcome, deletionDate: int -> int)
  {
    forall id :: id in delivered <==> id in targets && post(NoticeFor(targets[id], kind, deletionDate)) == Delivered
  }

  /** The store after `$addToSet` of `flag` on each of `ids`. */
  function Flagged(m: Store, ids: set<UserId>, flag: string): (r: Store)
    ensures r.Keys == m.Keys
  {
    map id | id in m :: if id in ids then FlagAdded(m[id], flag) else m[id]
  }

  /** The store after soft-deleting each of `ids`. */
  function Tombstoned(m: Store, ids: set<UserId>, now: int): (r: Store)
    ensures r.Keys == m.Keys
  {
    map id | id in m :: if id in ids then Tombstone(now) else m[id]
  }

  /** The notify events for accounts processed in `order`. */
  function NoticeLog(order: seq<UserId>, targets: Store, kind: string, post: Notice -> PostOutcome, deletionDate: int -> int): seq<Event>
    requires forall x :: x in order ==> x in targets
  {
    if order == [] then []
    else
      var id := order[|order| - 1];
      var n := NoticeFor(targets[id], kind, deletionDate);
      NoticeLog(order[..|order| - 1], targets, kind, post, deletionDate) + [NoticeEvent(id, n, post(n))]
  }

  /** The removal events for accounts processed in `order`. */
  function RemovalLog(order: seq<UserId>, reason: string, withLpas: bool): seq<Event>
  {
    if order == [] then [] else RemovalLog(order[..|order| - 1], reason, withLpas) + [Removed(order[|order| - 1], reason, withLpas)]
  }

  /** The deletion logs the account-management service appends for the accounts removed
      in `order`, each under the hash of its username as it was in `m0`; none when the log
      store does not accept inserts. */
  function DeletionLogs(order: seq<UserId>, m0: Store, reason: string, now: int, sha512: string -> string, logAccepted: bool): (r: seq<Doc>)
    requires forall x :: x in order ==> x in m0
    ensures |r| == if logAccepted then |order| else 0
  {
    if order == [] then []
    else
      DeletionLogs(order[..|order| - 1], m0, reason, now, sha512, logAccepted)
        + (if logAccepted then [DeletionEntry(m0[order[|order| - 1]], reason, now, sha512)] else [])
  }

  /** The stored deletion log of one account. */
  function DeletionEntry(a: Account, reason: string, now: int, sha512: string -> string): Doc
  {
    DocToStore(DeletionLog(HashIdentity(sha512, UsernameOf(a)), Text(reason), now))
  }

  /** Halfway through a removal stage, the log store holds its old documents and then the
      deletion logs of the accounts removed so far. */
  ghost predicate DeletionsLogged(logs: seq<Doc>, logs0: seq<Doc>, order: seq<UserId>, m0: Store,
                                  reason: string, now: int, sha512: string -> string, logAccepted: bool)
  {
    && (forall x :: x in order ==> x in m0)
    && logs == logs0 + DeletionLogs(order, m0, reason, now, sha512, logAccepted)
  }

  lemma DeletionLogsStep(order: seq<UserId>, id: UserId, m0: Store, reason: string, now: int, sha512: string -> string, logAccepted: bool)
    requires forall x :: x in order ==> x in m0
    requires id in m0
    ensures DeletionLogs(order + [id], m0, reason, now, sha512, logAccepted)
         == DeletionLogs(order, m0, reason, now, sha512, logAccepted)
            + (if logAccepted then [DeletionEntry(m0[id], reason, now, sha512)] else [])
  {
    var longer := order + [id];
    assert longer != [] && longer[..|longer| - 1] == order && longer[|longer| - 1] == id;
  }

  lemma DeletionsLoggedStep(logs: seq<Doc>, logs0: seq<Doc>, order: seq<UserId>, id: UserId, m0: Store,
                            reason: string, now: int, sha512: string -> string, logAccepted: bool)
    requires DeletionsLogged(logs, logs0, order, m0, reason, now, sha512, logAccepted)
    requires id in m0
    ensures DeletionsLogged(logs + (if logAccepted then [DeletionEntry(m0[id], reason, now, sha512)] else []),
                            logs0, order + [id], m0, reason, now, sha512, logAccepted)
  {
    DeletionLogsStep(order, id, m0, reason, now, sha512, logAccepted);
    AppendAfter(logs0, DeletionLogs(order, m0, reason, now, sha512, logAccepted),
                if logAccepted then [DeletionEntry(m0[id], reason, now, sha512)] else []);
  }

  /** `order` lists the keys of `targets`, each exactly once. */
  ghost predicate Enumerates(order: seq<UserId>, targets: set<UserId>)
  {
    && (forall x :: x in order ==> x in targets)
    && (forall id :: id in targets ==> id in order)
    && (forall i, j :: 0 <= i < j < |order| ==> order[i] != order[j])
  }

  /** A notice log holds no summary event. */
  lemma {:induction false} NoticeLogHasNoSummary(order: seq<UserId>, targets: Store, kind: string, post: Notice -> PostOutcome, deletionDate: int -> int)
    requires forall x :: x in order ==> x in targets
    ensures forall e :: e in NoticeLog(order, targets, kind, post, deletionDate) ==> !IsSummary(e)
    ensures |NoticeLog(order, targets, kind, post, deletionDate)| == |order|
    decreases |order|
  {
    if order != [] {
      NoticeLogHasNoSummary(order[..|order| - 1], targets, kind, post, deletionDate);
    }
  }

  /** A delivered notice in a stage's log went to one of the stage's targets, carries the
      stage's kind and that account's details. */
  lemma {:induction false} NoticeLogSent(order: seq<UserId>, targets: Store, kind: string, post: Notice -> PostOutcome, deletionDate: int -> int, id: UserId, n: Notice)
    requires forall x :: x in order ==> x in targets
    requires NoticeSent(id, n) in NoticeLog(order, targets, kind, post, deletionDate)
    ensures id in targets && n == NoticeFor(targets[id], kind, deletionDate) && post(n) == Delivered
    ensures n.kind == kind
    decreases |order|
  {
    var last := order[|order| - 1];
    var nl := NoticeFor(targets[last], kind, deletionDate);
    if NoticeSent(id, n) != NoticeEvent(last, nl, post(nl)) {
      assert NoticeSent(id, n) in NoticeLog(order[..|order| - 1], targets, kind, post, deletionDate);
      NoticeLogSent(order[..|order| - 1], targets, kind, post, deletionDate, id, n);
    }
  }

  /** A removal stage logs one removal per account and nothing else. */
  lemma {:induction false} RemovalLogOnlyRemovals(order: seq<UserId>, reason: string, withLpas: bool)
    ensures forall e :: e in RemovalLog(order, reason, withLpas) ==> e.Removed? && e.reason == reason
    ensures |RemovalLog(order, reason, withLpas)| == |order|
    decreases |order|
  {
    if order != [] {
      RemovalLogOnlyRemovals(order[..|order| - 1], reason, withLpas);
    }
  }

  /** `order` lists the elements of `done`, each exactly once. */
  ghost predicate Lists(order: seq<UserId>, done: set<UserId>)
  {
    (forall x :: x in order <==> x in done) && |order| == |done|
  }

  lemma ListsStep(order: seq<UserId>, done: set<UserId>, id: UserId)
    requires Lists(order, done) && id !in done
    ensures Lists(order + [id], done + {id})
  {
  }

  /** A sequence covering a set is at least as long as the set. */
  lemma {:induction false} CoverBound(s: seq<UserId>, d: set<UserId>)
    requires forall x :: x in d ==> x in s
    ensures |d| <= |s|
    decreases |s|
  {
    if s == [] {
      assert d == {};
    } else {
      var last := s[|s| - 1];
      var init := s[..|s| - 1];
      forall x | x in d - {last} ensures x in init {
        var i :| 0 <= i < |s| && s[i] == x;
        assert init[i] == x;
      }
      CoverBound(init, d - {last});
    }
  }

  /** A list as long as the set it covers repeats nothing. */
  lemma {:induction false} ListsEnumerates(order: seq<UserId>, done: set<UserId>)
    requires Lists(order, done)
    ensures Enumerates(order, done)
    decreases |order|
  {
    if order != [] {
      var last := order[|order| - 1];
      var init := order[..|order| - 1];
      if last in init {
        forall x | x in done ensures x in init {
          var i :| 0 <= i < |order| && order[i] == x;
          if i < |init| { assert init[i] == x; }
        }
        CoverBound(init, done);
        assert false;
      }
      forall x ensures x in init <==> x in done - {last} {
        if x in init {
          var i :| 0 <= i < |init| && init[i] == x;
          assert order[i] == x;
        }
        if x in done - {last} {
          var i :| 0 <= i < |order| && order[i] == x;
          assert init[i] == x;
        }
      }
      ListsEnumerates(init, done - {last});
      forall i, j | 0 <= i < j < |order| ensures order[i] != order[j] {
        if j < |init| {
          assert order[i] == init[i] && order[j] == init[j];
        } else {
          assert order[i] == init[i];
        }
      }
    }
  }

  lemma TombstonedStep(m: Store, done: set<UserId>, id: UserId, now: int)
    requires id in m
    ensures Tombstoned(m, done, now)[id := Tombstone(now)] == Tombstoned(m, done + {id}, now)
  {
  }

  lemma FlaggedStep(m: Store, done: set<UserId>, id: UserId, flag: string)
    requires id in m && id !in done
    ensures Flagged(m, done, flag)[id := FlagAdded(Flagged(m, done, flag)[id], flag)] == Flagged(m, done + {id}, flag)
  {
  }

  lemma NoticeLogStep(order: seq<UserId>, id: UserId, targets: Store, kind: string, post: Notice -> PostOutcome, deletionDate: int -> int)
    requires forall x :: x in order ==> x in targets
    requires id in targets
    ensures var n := NoticeFor(targets[id], kind, deletionDate);
      NoticeLog(order + [id], targets, kind, post, deletionDate)
      == NoticeLog(order, targets, kind, post, deletionDate) + [NoticeEvent(id, n, post(n))]
  {
    assert (order + [id])[..|order|] == order;
  }

  lemma RemovalLogStep(order: seq<UserId>, id: UserId, reason: string, withLpas: bool)
    ensures RemovalLog(order + [id], reason, withLpas) == RemovalLog(order, reason, withLpas) + [Removed(id, reason, withLpas)]
  {
    assert (order + [id])[..|order|] == order;
  }

  /** Halfway through a removal stage: `done` (listed by `order`) has been removed and
      `todo` is left; the store, the event log (which extends `e0`) and the deletion logs
      (which extend `l0`) say so. */
  ghost predicate RemovalProgress(m0: Store, targets: set<UserId>, now: int, reason: string, withLpas: bool,
                                  sha512: string -> string, logAccepted: bool, e0: seq<Event>, l0: seq<Doc>,
                                  todo: set<UserId>, done: set<UserId>, order: seq<UserId>,
                                  docs: Store, events: seq<Event>, logs: seq<Doc>)
  {
    && todo + done == targets && todo !! done
    && Lists(order, done)
    && docs == Tombstoned(m0, done, now)
    && events == e0 + RemovalLog(order, reason, withLpas)
    && DeletionsLogged(logs, l0, order, m0, reason, now, sha512, logAccepted)
  }

  lemma RemovalProgressStep(m0: Store, targets: set<UserId>, now: int, reason: string, withLpas: bool,
                            sha512: string -> string, logAccepted: bool, e0: seq<Event>, l0: seq<Doc>,
                            todo: set<UserId>, done: set<UserId>, order: seq<UserId>,
                            docs: Store, events: seq<Event>, logs: seq<Doc>, id: UserId)
    requires RemovalProgress(m0, targets, now, reason, withLpas, sha512, logAccepted, e0, l0, todo, done, order, docs, events, logs)
    requires id in todo && id in m0
    ensures docs[id] == m0[id]
    ensures RemovalProgress(m0, targets, now, reason, withLpas, sha512, logAccepted, e0, l0,
                            todo - {id}, done + {id}, order + [id], docs[id := Tombstone(now)],
                            events + [Removed(id, reason, withLpas)],
                            logs + (if logAccepted then [DeletionEntry(m0[id], reason, now, sha512)] else []))
  {
    PartitionStep(todo, done, targets, id);
    TombstonedStep(m0, done, id, now);
    RemovalLogStep(order, id, reason, withLpas);
    AppendAfter(e0, RemovalLog(order, reason, withLpas), [Removed(id, reason, withLpas)]);
    DeletionsLoggedStep(logs, l0, order, id, m0, reason, now, sha512, logAccepted);
    ListsStep(order, done, id);
  }

  /** Before a removal stage nothing is removed yet. */
  lemma RemovalStart(m0: Store, targets: set<UserId>, now: int, reason: string, withLpas: bool,
                     sha512: string -> string, logAccepted: bool, e0: seq<Event>, l0: seq<Doc>)
    ensures RemovalProgress(m0, targets, now, reason, withLpas, sha512, logAccepted, e0, l0, targets, {}, [], m0, e0, l0)
  {
    assert Tombstoned(m0, {}, now) == m0;
    assert e0 + RemovalLog([], reason, withLpas) == e0;
    assert l0 + DeletionLogs([], m0, reason, now, sha512, logAccepted) == l0;
  }

  /** A finished removal stage has removed every target once, and logged one event and
      (when inserts are accepted) one deletion log per target, in the same order. */
  lemma RemovalDone(m0: Store, targets: set<UserId>, now: int, reason: string, withLpas: bool,
                    sha512: string -> string, logAccepted: bool, e0: seq<Event>, l0: seq<Doc>,
                    done: set<UserId>, order: seq<UserId>, docs: Store, events: seq<Event>, logs: seq<Doc>)
    requires RemovalProgress(m0, targets, now, reason, withLpas, sha512, logAccepted, e0, l0, {}, done, order, docs, events, logs)
    ensures docs == Tombstoned(m0, targets, now)
    ensures Enumerates(order, targets)
    ensures events == e0 + RemovalLog(order, reason, withLpas)
    ensures forall x :: x in order ==> x in m0
    ensures logs == l0 + DeletionLogs(order, m0, reason, now, sha512, logAccepted)
  {
    ListsEnumerates(order, done);
  }

  /** `delivered` holds exactly those of `done` whose notice the callback accepted. */
  ghost predicate DeliveredSoFar(delivered: set<UserId>, done: set<UserId>, targets: Store, kind: string,
                                 post: Notice -> PostOutcome, deletionDate: int -> int)
    requires done <= targets.Keys
  {
    && delivered <= done
    && forall x :: x in done ==> (x in delivered <==> post(NoticeFor(targets[x], kind, deletionDate)) == Delivered)
  }

  lemma DeliveredSoFarStep(delivered: set<UserId>, done: set<UserId>, targets: Store, kind: string,
                           post: Notice -> PostOutcome, deletionDate: int -> int, id: UserId)
    requires done <= targets.Keys && id in targets
    requires DeliveredSoFar(delivered, done, targets, kind, post, deletionDate)
    ensures post(NoticeFor(targets[id], kind, deletionDate)) == Delivered ==>
      DeliveredSoFar(delivered + {id}, done + {id}, targets, kind, post, deletionDate)
    ensures post(NoticeFor(targets[id], kind, deletionDate)) != Delivered ==>
      DeliveredSoFar(delivered, done + {id}, targets, kind, post, deletionDate)
  {
  }

  /** Halfway through a notify stage: `done` (listed by `order`) has been notified, those of
      them in `delivered` flagged, and the event log says so. */
  ghost predicate NoticeProgress(m0: Store, targets: Store, kind: string, post: Notice -> PostOutcome, deletionDate: int -> int,
                                 todo: set<UserId>, done: set<UserId>, order: seq<UserId>, delivered: set<UserId>,
                                 docs: Store, log: seq<Event>)
  {
    && todo + done == targets.Keys && todo !! done
    && Lists(order, done)
    && DeliveredSoFar(delivered, done, targets, kind, post, deletionDate)
    && docs == Flagged(m0, delivered, kind)
    && log == NoticeLog(order, targets, kind, post, deletionDate)
  }

  lemma NoticeProgressStep(m0: Store, targets: Store, kind: string, post: Notice -> PostOutcome, deletionDate: int -> int,
                           todo: set<UserId>, done: set<UserId>, order: seq<UserId>, delivered: set<UserId>,
                           docs: Store, log: seq<Event>, id: UserId)
    requires NoticeProgress(m0, targets, kind, post, deletionDate, todo, done, order, delivered, docs, log)
    requires id in todo && id in m0
    ensures var n := NoticeFor(targets[id], kind, deletionDate);
      post(n) == Delivered ==>
      NoticeProgress(m0, targets, kind, post, deletionDate, todo - {id}, done + {id}, order + [id],
                     delivered + {id}, docs[id := FlagAdded(docs[id], kind)], log + [NoticeEvent(id, n, post(n))])
    ensures var n := NoticeFor(targets[id], kind, deletionDate);
      post(n) != Delivered ==>
      NoticeProgress(m0, targets, kind, post, deletionDate, todo - {id}, done + {id}, order + [id],
                     delivered, docs, log + [NoticeEvent(id, n, post(n))])
  {
    PartitionStep(todo, done, targets.Keys, id);
    ListsStep(order, done, id);
    NoticeLogStep(order, id, targets, kind, post, deletionDate);
    DeliveredSoFarStep(delivered, done, targets, kind, post, deletionDate, id);
    if post(NoticeFor(targets[id], kind, deletionDate)) == Delivered {
      FlaggedStep(m0, delivered, id, kind);
    }
  }

  /** Before a notify stage nothing is notified yet. */
  lemma NoticeStart(m0: Store, targets: Store, kind: string, post: Notice -> PostOutcome, deletionDate: int -> int)
    ensures NoticeProgress(m0, targets, kind, post, deletionDate, targets.Keys, {}, [], {}, m0, [])
  {
    assert Flagged(m0, {}, kind) == m0;
  }

  /** A finished notify stage has notified every target once and flagged exactly those
      whose notice was delivered. */
  lemma NoticeProgressDone(m0: Store, targets: Store, kind: string, post: Notice -> PostOutcome, deletionDate: int -> int,
                           done: set<UserId>, order: seq<UserId>, delivered: set<UserId>, docs: Store, log: seq<Event>)
    requires NoticeProgress(m0, targets, kind, post, deletionDate, {}, done, order, delivered, docs, log)
    ensures Enumerates(order, targets.Keys)
    ensures DeliveredAmong(delivered, targets, kind, post, deletionDate)
  {
    ListsEnumerates(order, done);
  }

  /** A notify stage only flags accounts its scan selected, so it leaves deleted accounts
      as they are. */
  lemma NotifyKeepsTombstones(m: Store, since: int, kind: string, delivered: set<UserId>, now: int, id: UserId)
    requires delivered <= InactiveAccounts(m, since, Some(kind)).Keys
    requires id in m && m[id] == Tombstone(now)
    ensures Flagged(m, delivered, kind)[id] == Tombstone(now)
  {
    TombstoneMatchesNothing(now, "", since, Some(kind), now);
  }

  /** The stores of one run: `m0` at the start, then after each of the four stages. */
  ghost predicate RunStores(m0: Store, m1: Store, m2: Store, m3: Store, m4: Store, d2: set<UserId>, d3: set<UserId>,
                            now: int, expiredBefore: int, weekBefore: int, monthBefore: int, unactivatedBefore: int)
  {
    && m1 == Tombstoned(m0, InactiveAccounts(m0, expiredBefore, None).Keys, now)
    && d2 <= InactiveAccounts(m1, weekBefore, Some(WEEK_NOTICE)).Keys
    && m2 == Flagged(m1, d2, WEEK_NOTICE)
    && d3 <= InactiveAccounts(m2, monthBefore, Some(MONTH_NOTICE)).Keys
    && m3 == Flagged(m2, d3, MONTH_NOTICE)
    && m4 == Tombstoned(m3, UnactivatedAccounts(m3, unactivatedBefore).Keys, now)
  }

  /** An account found expired at the start of a run is deleted at its end: no later stage
      selects it again. */
  lemma ExpiredStayDeleted(m0: Store, m1: Store, m2: Store, m3: Store, m4: Store, d2: set<UserId>, d3: set<UserId>,
                           now: int, expiredBefore: int, weekBefore: int, monthBefore: int, unactivatedBefore: int)
    requires RunStores(m0, m1, m2, m3, m4, d2, d3, now, expiredBefore, weekBefore, monthBefore, unactivatedBefore)
    ensures m4.Keys == m0.Keys
    ensures forall id :: id in m0 && InactiveSince(m0[id], expiredBefore, None) ==> m4[id] == Tombstone(now)
  {
    forall id | id in m0 && InactiveSince(m0[id], expiredBefore, None)
      ensures m4[id] == Tombstone(now)
    {
      NotifyKeepsTombstones(m1, weekBefore, WEEK_NOTICE, d2, now, id);
      NotifyKeepsTombstones(m2, monthBefore, MONTH_NOTICE, d3, now, id);
    }
  }

  /** An account that was sent the one-week notice was neither expired nor flagged at the
      start of the run, and at its end it carries the flag or is deleted: the one-week scan
      of the next run does not select it. */
  lemma WeekNoticeSticks(m0: Store, m1: Store, m2: Store, m3: Store, m4: Store, d2: set<UserId>, d3: set<UserId>,
                         now: int, expiredBefore: int, weekBefore: int, monthBefore: int, unactivatedBefore: int, id: UserId)
    requires RunStores(m0, m1, m2, m3, m4, d2, d3, now, expiredBefore, weekBefore, monthBefore, unactivatedBefore)
    requires id in d2
    ensures id in m0 && !InactiveSince(m0[id], expiredBefore, None)
    ensures InactiveSince(m0[id], weekBefore, Some(WEEK_NOTICE))
    ensures id in m4 && !InactiveSince(m4[id], weekBefore, Some(WEEK_NOTICE))
  {
    TombstoneMatchesNothing(now, "", weekBefore, Some(WEEK_NOTICE), now);
    assert id in InactiveAccounts(m1, weekBefore, Some(WEEK_NOTICE));
    assert m1[id] != Tombstone(now);
    assert id !in InactiveAccounts(m0, expiredBefore, None);
    assert WEEK_NOTICE in m2[id].inactivityFlags;
    assert WEEK_NOTICE in m3[id].inactivityFlags;
  }

  /** An account that was sent the one-month notice was neither expired nor flagged with it
      at the start of the run, and at its end it carries the flag or is deleted: the
      one-month scan of the next run does not select it. */
  lemma MonthNoticeSticks(m0: Store, m1: Store, m2: Store, m3: Store, m4: Store, d2: set<UserId>, d3: set<UserId>,
                          now: int, expiredBefore: int, weekBefore: int, monthBefore: int, unactivatedBefore: int, id: UserId)
    requires RunStores(m0, m1, m2, m3, m4, d2, d3, now, expiredBefore, weekBefore, monthBefore, unactivatedBefore)
    requires id in d3
    ensures id in m0 && !InactiveSince(m0[id], expiredBefore, None)
    ensures InactiveSince(m0[id], monthBefore, Some(MONTH_NOTICE))
    ensures id in m4 && !InactiveSince(m4[id], monthBefore, Some(MONTH_NOTICE))
  {
    TombstoneMatchesNothing(now, "", monthBefore, Some(MONTH_NOTICE), now);
    assert id in InactiveAccounts(m2, monthBefore, Some(MONTH_NOTICE));
    assert m2[id] == m1[id] || m2[id] == FlagAdded(m1[id], WEEK_NOTICE);
    assert m1[id] != Tombstone(now);
    assert id !in InactiveAccounts(m0, expiredBefore, None);
    assert MONTH_NOTICE in m3[id].inactivityFlags;
  }

  /** An unactivated account older than the cut-off at the start of a run is deleted at
      its end, by the expiry stage or by the unactivated stage: the notice stages only add
      flags. */
  lemma UnactivatedRemoved(m0: Store, m1: Store, m2: Store, m3: Store, m4: Store, d2: set<UserId>, d3: set<UserId>,
                           now: int, expiredBefore: int, weekBefore: int, monthBefore: int, unactivatedBefore: int, id: UserId)
    requires RunStores(m0, m1, m2, m3, m4, d2, d3, now, expiredBefore, weekBefore, monthBefore, unactivatedBefore)
    requires id in m0 && UnactivatedOlderThan(m0[id], unactivatedBefore)
    ensures m4[id] == Tombstone(now)
  {
    if InactiveSince(m0[id], expiredBefore, None) {
      ExpiredStayDeleted(m0, m1, m2, m3, m4, d2, d3, now, expiredBefore, weekBefore, monthBefore, unactivatedBefore);
    } else {
      assert m1[id] == m0[id];
      assert m3[id].active == m0[id].active && m3[id].created == m0[id].created;
      assert id in UnactivatedAccounts(m3, unactivatedBefore);
    }
  }

  /** The events of one run: the four stages' logs, then the summary. */
  function RunLog(o1: seq<UserId>, o2: seq<UserId>, week: Store, o3: seq<UserId>, month: Store, o4: seq<UserId>,
                  post: Notice -> PostOutcome, deletionDate: int -> int): seq<Event>
    requires forall x :: x in o2 ==> x in week
    requires forall x :: x in o3 ==> x in month
  {
    RemovalLog(o1, "expired", true) + NoticeLog(o2, week, WEEK_NOTICE, post, deletionDate)
      + NoticeLog(o3, month, MONTH_NOTICE, post, deletionDate) + RemovalLog(o4, "unactivated", false)
  }

  /** The log after four stages: the old log, then the stages' events. */
  lemma AppendStages(e0: seq<Event>, a: seq<Event>, b: seq<Event>, c: seq<Event>, d: seq<Event>)
    ensures (((e0 + a) + b) + c) + d == e0 + (((a + b) + c) + d)
  {
  }

  /** A run logs no summary before its end, and every notice it delivered comes from the
      stage of its kind. */
  lemma RunLogEvents(o1: seq<UserId>, o2: seq<UserId>, week: Store, o3: seq<UserId>, month: Store, o4: seq<UserId>,
                     post: Notice -> PostOutcome, deletionDate: int -> int)
    requires forall x :: x in o2 ==> x in week
    requires forall x :: x in o3 ==> x in month
    ensures forall e :: e in RunLog(o1, o2, week, o3, month, o4, post, deletionDate) ==> !IsSummary(e)
    ensures forall id, n ::
      NoticeSent(id, n) in RunLog(o1, o2, week, o3, month, o4, post, deletionDate) && n.kind == WEEK_NOTICE
      ==> id in week && post(NoticeFor(week[id], WEEK_NOTICE, deletionDate)) == Delivered
    ensures forall id, n ::
      NoticeSent(id, n) in RunLog(o1, o2, week, o3, month, o4, post, deletionDate) && n.kind == MONTH_NOTICE
      ==> id in month && post(NoticeFor(month[id], MONTH_NOTICE, deletionDate)) == Delivered
  {
    NoticeLogHasNoSummary(o2, week, WEEK_NOTICE, post, deletionDate);
    NoticeLogHasNoSummary(o3, month, MONTH_NOTICE, post, deletionDate);
    RemovalLogOnlyRemovals(o1, "expired", true);
    RemovalLogOnlyRemovals(o4, "unactivated", false);
    forall id, n | NoticeSent(id, n) in RunLog(o1, o2, week, o3, month, o4, post, deletionDate) && n.kind == WEEK_NOTICE
      ensures id in week && post(NoticeFor(week[id], WEEK_NOTICE, deletionDate)) == Delivered
    {
      if NoticeSent(id, n) in NoticeLog(o3, month, MONTH_NOTICE, post, deletionDate) {
        NoticeLogSent(o3, month, MONTH_NOTICE, post, deletionDate, id, n);
        assert false;
      }
      NoticeLogSent(o2, week, WEEK_NOTICE, post, deletionDate, id, n);
    }
    forall id, n | NoticeSent(id, n) in RunLog(o1, o2, week, o3, month, o4, post, deletionDate) && n.kind == MONTH_NOTICE
      ensures id in month && post(NoticeFor(month[id], MONTH_NOTICE, deletionDate)) == Delivered
    {
      if NoticeSent(id, n) in NoticeLog(o2, week, WEEK_NOTICE, post, deletionDate) {
        NoticeLogSent(o2, week, WEEK_NOTICE, post, deletionDate, id, n);
        assert false;
      }
      NoticeLogSent(o3, month, MONTH_NOTICE, post, deletionDate, id, n);
    }
  }

  /** What one run does, stated on its successive stores `m0` … `m4` and its log `ev`
      (which extends `e0`): see `CleanupService.Cleanup`. */
  lemma RunOutcome(m0: Store, m4: Store, run: Stages, now: int, expiredBefore: int, weekBefore: int, monthBefore: int, unactivatedBefore: int,
                   post: Notice -> PostOutcome, deletionDate: int -> int, e0: seq<Event>, ev: seq<Event>, summary: Event)
    requires RunRecorded(m0, m4, run, now, expiredBefore, weekBefore, monthBefore, unactivatedBefore, post, deletionDate)
    requires ev == e0 + StageEvents(run, weekBefore, monthBefore, post, deletionDate) + [summary]
    requires IsSummary(summary)
    ensures m4.Keys == m0.Keys
    ensures |ev| > |e0| && ev[..|e0|] == e0 && ev[|ev| - 1] == summary
    ensures forall i :: |e0| <= i < |ev| - 1 ==> !IsSummary(ev[i])
    ensures forall id :: id in m0 && InactiveSince(m0[id], expiredBefore, None) ==> m4[id] == Tombstone(now)
    ensures forall id, n ::
      NoticeSent(id, n) in ev[|e0|..] && n.kind == WEEK_NOTICE
      ==> && id in m0
          && !InactiveSince(m0[id], expiredBefore, None)
          && InactiveSince(m0[id], weekBefore, Some(WEEK_NOTICE))
          && !InactiveSince(m4[id], weekBefore, Some(WEEK_NOTICE))
    ensures forall id, n ::
      NoticeSent(id, n) in ev[|e0|..] && n.kind == MONTH_NOTICE
      ==> && id in m0
          && !InactiveSince(m0[id], expiredBefore, None)
          && InactiveSince(m0[id], monthBefore, Some(MONTH_NOTICE))
          && !InactiveSince(m4[id], monthBefore, Some(MONTH_NOTICE))
    ensures forall id :: id in m0 && UnactivatedOlderThan(m0[id], unactivatedBefore) ==> m4[id] == Tombstone(now)
  {
    var m1, m2, m3, d2, d3 := run.m1, run.m2, run.m3, run.d2, run.d3;
    var o1, o2, o3, o4 := run.o1, run.o2, run.o3, run.o4;
    var week := InactiveAccounts(m1, weekBefore, Some(WEEK_NOTICE));
    var month := InactiveAccounts(m2, monthBefore, Some(MONTH_NOTICE));
    var stageLog := RunLog(o1, o2, week, o3, month, o4, post, deletionDate);
    assert ev[..|e0|] == e0 && ev[|e0|..] == stageLog + [summary];
    ExpiredStayDeleted(m0, m1, m2, m3, m4, d2, d3, now, expiredBefore, weekBefore, monthBefore, unactivatedBefore);
    RunLogEvents(o1, o2, week, o3, month, o4, post, deletionDate);
    forall i | |e0| <= i < |ev| - 1
      ensures !IsSummary(ev[i])
    {
      assert ev[i] == stageLog[i - |e0|];
    }
    forall id, n | NoticeSent(id, n) in ev[|e0|..] && n.kind == WEEK_NOTICE
      ensures && id in m0
              && !InactiveSince(m0[id], expiredBefore, None)
              && InactiveSince(m0[id], weekBefore, Some(WEEK_NOTICE))
              && !InactiveSince(m4[id], weekBefore, Some(WEEK_NOTICE))
    {
      assert NoticeSent(id, n) in stageLog;
      WeekNoticeSticks(m0, m1, m2, m3, m4, d2, d3, now, expiredBefore, weekBefore, monthBefore, unactivatedBefore, id);
    }
    forall id, n | NoticeSent(id, n) in ev[|e0|..] && n.kind == MONTH_NOTICE
      ensures && id in m0
              && !InactiveSince(m0[id], expiredBefore, None)
              && InactiveSince(m0[id], monthBefore, Some(MONTH_NOTICE))
              && !InactiveSince(m4[id], monthBefore, Some(MONTH_NOTICE))
    {
      assert NoticeSent(id, n) in stageLog;
      MonthNoticeSticks(m0, m1, m2, m3, m4, d2, d3, now, expiredBefore, weekBefore, monthBefore, unactivatedBefore, id);
    }
    forall id | id in m0 && UnactivatedOlderThan(m0[id], unactivatedBefore)
      ensures m4[id] == Tombstone(now)
    {
      UnactivatedRemoved(m0, m1, m2, m3, m4, d2, d3, now, expiredBefore, weekBefore, monthBefore, unactivatedBefore, id);
    }
  }

  /** The intermediate results of one run, for stating what it did: the stores after the
      first three stages, the accounts whose notices were delivered, and the order in which
      each stage visited its accounts. */
  datatype Stages = Stages(m1: Store, m2: Store, m3: Store, d2: set<UserId>, d3: set<UserId>,
                           o1: seq<UserId>, o2: seq<UserId>, o3: seq<UserId>, o4: seq<UserId>)

  /** What the four stages of a run did, from the store `m0` to `m4`: the stores between
      stages, each stage visiting each account of its scan once, and the notices
      delivered. */
  ghost predicate RunRecorded(m0: Store, m4: Store, run: Stages, now: int, expiredBefore: int, weekBefore: int, monthBefore: int, unactivatedBefore: int,
                              post: Notice -> PostOutcome, deletionDate: int -> int)
  {
    && RunStores(m0, run.m1, run.m2, run.m3, m4, run.d2, run.d3, now, expiredBefore, weekBefore, monthBefore, unactivatedBefore)
    && Enumerates(run.o1, InactiveAccounts(m0, expiredBefore, None).Keys)
    && Enumerates(run.o2, InactiveAccounts(run.m1, weekBefore, Some(WEEK_NOTICE)).Keys)
    && DeliveredAmong(run.d2, InactiveAccounts(run.m1, weekBefore, Some(WEEK_NOTICE)), WEEK_NOTICE, post, deletionDate)
    && Enumerates(run.o3, InactiveAccounts(run.m2, monthBefore, Some(MONTH_NOTICE)).Keys)
    && DeliveredAmong(run.d3, InactiveAccounts(run.m2, monthBefore, Some(MONTH_NOTICE)), MONTH_NOTICE, post, deletionDate)
    && Enumerates(run.o4, UnactivatedAccounts(run.m3, unactivatedBefore).Keys)
  }

  /** The events of the four stages of `run`. */
  function StageEvents(run: Stages, weekBefore: int, monthBefore: int, post: Notice -> PostOutcome, deletionDate: int -> int): seq<Event>
    requires forall x :: x in run.o2 ==> x in InactiveAccounts(run.m1, weekBefore, Some(WEEK_NOTICE))
    requires forall x :: x in run.o3 ==> x in InactiveAccounts(run.m2, monthBefore, Some(MONTH_NOTICE))
  {
    RunLog(run.o1, run.o2, InactiveAccounts(run.m1, weekBefore, Some(WEEK_NOTICE)),
           run.o3, InactiveAccounts(run.m2, monthBefore, Some(MONTH_NOTICE)), run.o4, post, deletionDate)
  }

  class CleanupService {
    const users: AuthUserCollection
    const management: UserManagementService
    var events: seq<Event>

    ghost predicate Valid()
      reads users
    {
      management.users == users && users.Valid()
    }

    constructor (users: AuthUserCollection, management: UserManagementService)
      requires management.users == users && users.Valid()
      ensures Valid() && events == []
      ensures this.users == users && this.management == management
    {
      this.users := users;
      this.management := management;
      events := [];
    }

    /** One removal: deletes account `id` through the user management service, which
        appends its deletion log, and records the event; `id` moves from `todo` to
        `done`. */
    method RemoveOne(ghost m0: Store, ghost targets: set<UserId>, ghost e0: seq<Event>, ghost l0: seq<Doc>,
                     ghost todo: set<UserId>, ghost done: set<UserId>, ghost order: seq<UserId>,
                     id: UserId, reason: string, withLpas: bool, now: int, sha512: string -> string, logAccepted: bool)
      requires Valid()
      requires RemovalProgress(m0, targets, now, reason, withLpas, sha512, logAccepted, e0, l0,
                               todo, done, order, users.docs, events, management.logs.docs)
      requires id in todo && id in m0
      modifies this, users, management.logs
      ensures Valid()
      ensures RemovalProgress(m0, targets, now, reason, withLpas, sha512, logAccepted, e0, l0,
                              todo - {id}, done + {id}, order + [id], users.docs, events, management.logs.docs)
      ensures users.docs == old(users.docs)[id := Tombstone(now)]
      ensures events == old(events) + [Removed(id, reason, withLpas)]
      ensures management.logs.docs == old(management.logs.docs) + (if logAccepted then [DeletionEntry(m0[id], reason, now, sha512)] else [])
    {
      RemovalProgressStep(m0, targets, now, reason, withLpas, sha512, logAccepted, e0, l0,
                          todo, done, order, users.docs, events, management.logs.docs, id);
      var _ := management.Delete(sha512, id, Text(reason), now, logAccepted);
      events := events + [Removed(id, reason, withLpas)];
    }

    /** Deletes (through the user management service) every account of `targets`, once
        each, recording the reason. */
    method RemoveAll(targets: Store, reason: string, withLpas: bool, now: int, sha512: string -> string, logAccepted: bool)
      returns (ghost order: seq<UserId>)
      requires Valid() && targets.Keys <= users.docs.Keys
      modifies this, users, management.logs
      ensures Valid()
      ensures users.docs == Tombstoned(old(users.docs), targets.Keys, now)
      ensures Enumerates(order, targets.Keys)
      ensures events == old(events) + RemovalLog(order, reason, withLpas)
      ensures management.logs.docs == old(management.logs.docs) + DeletionLogs(order, old(users.docs), reason, now, sha512, logAccepted)
    {
      var todo := targets.Keys;
      order := [];
      ghost var done: set<UserId> := {};
      RemovalStart(old(users.docs), targets.Keys, now, reason, withLpas, sha512, logAccepted, old(events), old(management.logs.docs));
      while todo != {}
        invariant Valid()
        invariant RemovalProgress(old(users.docs), targets.Keys, now, reason, withLpas, sha512, logAccepted,
                                  old(events), old(management.logs.docs), todo, done, order, users.docs, events, management.logs.docs)
        decreases |todo|
      {
        var id :| id in todo;
        RemoveOne(old(users.docs), targets.Keys, old(events), old(management.logs.docs), todo, done, order,
                  id, reason, withLpas, now, sha512, logAccepted);
        todo := todo - {id};
        done := done + {id};
        order := order + [id];
      }
      RemovalDone(old(users.docs), targets.Keys, now, reason, withLpas, sha512, logAccepted, old(events), old(management.logs.docs),
                  done, order, users.docs, events, management.logs.docs);
    }

    /** One notice: posts the notice for account `id`, flags the account if the post was
        delivered and records the outcome. */
    method NotifyOne(id: UserId, a: Account, kind: string, post: Notice -> PostOutcome, deletionDate: int -> int)
      returns (outcome: PostOutcome)
      requires Valid()
      modifies this, users
      ensures Valid()
      ensures outcome == post(NoticeFor(a, kind, deletionDate))
      ensures events == old(events) + [NoticeEvent(id, NoticeFor(a, kind, deletionDate), outcome)]
      ensures outcome == Delivered && id in old(users.docs) ==> users.docs == old(users.docs)[id := FlagAdded(old(users.docs)[id], kind)]
      ensures outcome != Delivered || id !in old(users.docs) ==> users.docs == old(users.docs)
    {
      var n := NoticeFor(a, kind, deletionDate);
      outcome := post(n);
      if outcome == Delivered {
        var _ := users.SetInactivityFlag(id, kind);
      }
      events := events + [NoticeEvent(id, n, outcome)];
    }

    /** Posts a notice to every account of `targets` (the stage's scan), once each, and sets
        the stage's flag on exactly those whose notice was delivered; a failed post is
        logged instead. */
    method NotifyAll(targets: Store, kind: string, post: Notice -> PostOutcome, deletionDate: int -> int)
      returns (ghost order: seq<UserId>, ghost delivered: set<UserId>)
      requires Valid()
      requires targets.Keys <= users.docs.Keys
      modifies this, users
      ensures Valid()
      ensures DeliveredAmong(delivered, targets, kind, post, deletionDate)
      ensures users.docs == Flagged(old(users.docs), delivered, kind)
      ensures Enumerates(order, targets.Keys)
      ensures events == old(events) + NoticeLog(order, targets, kind, post, deletionDate)
    {
      var todo := targets.Keys;
      order := [];
      ghost var done: set<UserId> := {};
      delivered := {};
      ghost var log: seq<Event> := [];
      NoticeStart(old(users.docs), targets, kind, post, deletionDate);
      while todo != {}
        invariant Valid()
        invariant events == old(events) + log
        invariant NoticeProgress(old(users.docs), targets, kind, post, deletionDate, todo, done, order, delivered, users.docs, log)
        decreases |todo|
      {
        var id :| id in todo;
        NoticeProgressStep(old(users.docs), targets, kind, post, deletionDate, todo, done, order, delivered, users.docs, log, id);
        var outcome := NotifyOne(id, targets[id], kind, post, deletionDate);
        ghost var e := NoticeEvent(id, NoticeFor(targets[id], kind, deletionDate), outcome);
        AppendAfter(old(events), log, [e]);
        log := log + [e];
        if outcome == Delivered {
          delivered := delivered + {id};
        }
        todo := todo - {id};
        done := done + {id};
        order := order + [id];
      }
      NoticeProgressDone(old(users.docs), targets, kind, post, deletionDate, done, order, delivered, users.docs, log);
    }

    /** The four stages of one run, in order: delete accounts last seen before
        `expiredBefore`; send the one-week notice to those last seen before `weekBefore` and
        the one-month notice to those last seen before `monthBefore` (each to accounts not
        yet carrying it); delete unactivated accounts created before `unactivatedBefore`.
        `run` names the intermediate stores and visit orders the contract speaks of. */
    method RunStages(now: int, expiredBefore: int, weekBefore: int, monthBefore: int, unactivatedBefore: int,
                     post: Notice -> PostOutcome, deletionDate: int -> int,
                     sha512: string -> string, logAccepted: bool)
      returns (ghost run: Stages)
      requires Valid()
      modifies this, users, management.logs
      ensures Valid()
      ensures RunRecorded(old(users.docs), users.docs, run, now, expiredBefore, weekBefore, monthBefore, unactivatedBefore,
                          post, deletionDate)
      ensures events == old(events) + StageEvents(run, weekBefore, monthBefore, post, deletionDate)
      ensures management.logs.docs == old(management.logs.docs)
        + DeletionLogs(run.o1, old(users.docs), "expired", now, sha512, logAccepted)
        + DeletionLogs(run.o4, run.m3, "unactivated", now, sha512, logAccepted)
    {
      ghost var m0 := users.docs;
      var expired := users.GetAccountsInactiveSince(expiredBefore, None);
      ghost var o1 := RemoveAll(expired, "expired", true, now, sha512, logAccepted);
      ghost var m1 := users.docs;
      var week := users.GetAccountsInactiveSince(weekBefore, Some(WEEK_NOTICE));
      ghost var o2, d2 := NotifyAll(week, WEEK_NOTICE, post, deletionDate);
      ghost var m2 := users.docs;
      var month := users.GetAccountsInactiveSince(monthBefore, Some(MONTH_NOTICE));
      ghost var o3, d3 := NotifyAll(month, MONTH_NOTICE, post, deletionDate);
      ghost var m3 := users.docs;
      var unactivated := users.GetAccountsUnactivatedOlderThan(unactivatedBefore);
      ghost var o4 := RemoveAll(unactivated, "unactivated", false, now, sha512, logAccepted);
      AppendStages(old(events), RemovalLog(o1, "expired", true), NoticeLog(o2, week, WEEK_NOTICE, post, deletionDate),
                   NoticeLog(o3, month, MONTH_NOTICE, post, deletionDate), RemovalLog(o4, "unactivated", false));
      run := Stages(m1, m2, m3, d2, d3, o1, o2, o3, o4);
      assert events == old(events) + StageEvents(run, weekBefore, monthBefore, post, deletionDate);
    }

    /** One run: delete accounts last seen before `expiredBefore`; send the one-week notice
        to those last seen before `weekBefore` and the one-month notice to those last seen
        before `monthBefore` (each to accounts not yet carrying it); delete unactivated
        accounts created before `unactivatedBefore`; then publish one summary. `run` names
        the intermediate stores and visit orders the contract speaks of. */
    method Cleanup(now: int, expiredBefore: int, weekBefore: int, monthBefore: int, unactivatedBefore: int,
                   post: Notice -> PostOutcome, deletionDate: int -> int,
                   sha512: string -> string, logAccepted: bool, publishOk: bool)
      returns (ghost run: Stages)
      requires Valid()
      modifies this, users, management.logs
      ensures Valid()
      ensures RunRecorded(old(users.docs), users.docs, run, now, expiredBefore, weekBefore, monthBefore, unactivatedBefore,
                          post, deletionDate)
      ensures events == old(events) + StageEvents(run, weekBefore, monthBefore, post, deletionDate)
                     + [if publishOk then SummaryPublished else SummaryAlerted]
      ensures management.logs.docs == old(management.logs.docs)
        + DeletionLogs(run.o1, old(users.docs), "expired", now, sha512, logAccepted)
        + DeletionLogs(run.o4, run.m3, "unactivated", now, sha512, logAccepted)
      ensures users.docs.Keys == old(users.docs.Keys)
      ensures |events| > |old(events)| && events[..|old(events)|] == old(events)
      ensures events[|events| - 1] == (if publishOk then SummaryPublished else SummaryAlerted)
      ensures forall i :: |old(events)| <= i < |events| - 1 ==> !IsSummary(events[i])
      ensures forall id ::
          id in old(users.docs) && InactiveSince(old(users.docs)[id], expiredBefore, None)
          ==> users.docs[id] == Tombstone(now)
      ensures forall id, n ::
          NoticeSent(id, n) in events[|old(events)|..] && n.kind == WEEK_NOTICE
          ==> && id in old(users.docs)
              && !InactiveSince(old(users.docs)[id], expiredBefore, None)
              && InactiveSince(old(users.docs)[id], weekBefore, Some(WEEK_NOTICE))
              && !InactiveSince(users.docs[id], weekBefore, Some(WEEK_NOTICE))
      ensures forall id, n ::
          NoticeSent(id, n) in events[|old(events)|..] && n.kind == MONTH_NOTICE
          ==> && id in old(users.docs)
              && !InactiveSince(old(users.docs)[id], expiredBefore, None)
              && InactiveSince(old(users.docs)[id], monthBefore, Some(MONTH_NOTICE))
              && !InactiveSince(users.docs[id], monthBefore, Some(MONTH_NOTICE))
      ensures forall id ::
          id in old(users.docs) && UnactivatedOlderThan(old(users.docs)[id], unactivatedBefore)
          ==> users.docs[id] == Tombstone(now)
    {
      run := RunStages(now, expiredBefore, weekBefore, monthBefore, unactivatedBefore, post, deletionDate, sha512, logAccepted);
      var summary := if publishOk then SummaryPublished else SummaryAlerted;
      events := events + [summary];
      RunOutcome(old(users.docs), users.docs, run, now, expiredBefore, weekBefore, monthBefore, unactivatedBefore,
                 post, deletionDate, old(events), events, summary);
    }
  }
}
