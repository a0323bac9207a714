/** The store behind the feedback application's request handlers: three tables
    held as sequences in primary-key order, and one operation per handler. Every
    operation that changes the store commits all of its rows or none of them. */
module FeedbackStore {
  import opened Collections
  import opened Models
  import opened Aggregation

  /** `first_or_404` / `get_or_404` on a session or a participant, a token that the
      unique constraint rejects at commit, and a form field missing from a submission. */
  datatype Error = SessionNotFound | ParticipantNotFound | DuplicateToken | MissingAnswer(participantId: nat)

  datatype Result<T> = Ok(value: T) | Err(error: Error)

  /** A submission's form has both answers for this participant. */
  predicate Answered(q1: map<nat, string>, q2: map<nat, string>, pid: nat)
  {
    pid in q1 && pid in q2
  }

  /** `rows` are the rows a submission stages for the participants `ps` of session
      `sid`: one per participant, in their order, addressed to that participant,
      carrying the form's two answers about them, with ids counting up from `base`. */
  ghost predicate IsBatch(ps: seq<Participant>, sid: nat, q1: map<nat, string>, q2: map<nat, string>, base: nat,
                          rows: seq<Feedback>)
  {
    && |rows| == |ps|
    && forall k :: 0 <= k < |ps| ==>
         Answered(q1, q2, ps[k].id)
         && rows[k] == Feedback(base + k, sid, ps[k].id, q1[ps[k].id], q2[ps[k].id])
  }

  /** `pid` is the first participant of `ps`, in order, lacking an answer. */
  ghost predicate FirstMissing(ps: seq<Participant>, q1: map<nat, string>, q2: map<nat, string>, pid: nat)
  {
    exists j :: 0 <= j < |ps| && ps[j].id == pid && !Answered(q1, q2, pid)
                && forall k :: 0 <= k < j ==> Answered(q1, q2, ps[k].id)
  }

  /** The loop of `start_feedback`: for each participant in order, read both
      answers about them from the form and stage one row with the next id. The
      first participant without both answers aborts the whole batch. */
  method PendingRows(ps: seq<Participant>, sid: nat, q1: map<nat, string>, q2: map<nat, string>, base: nat)
    returns (r: Result<seq<Feedback>>)
    ensures r.Ok? <==> forall p :: p in ps ==> Answered(q1, q2, p.id)
    ensures r.Err? ==> r.error.MissingAnswer? && FirstMissing(ps, q1, q2, r.error.participantId)
    ensures r.Ok? ==> IsBatch(ps, sid, q1, q2, base, r.value)
  {
    var rows: seq<Feedback> := [];
    var i := 0;
    while i < |ps|
      invariant 0 <= i <= |ps| && |rows| == i
      invariant forall k :: 0 <= k < i ==> Answered(q1, q2, ps[k].id)
      invariant forall k :: 0 <= k < i ==> rows[k] == Feedback(base + k, sid, ps[k].id, q1[ps[k].id], q2[ps[k].id])
    {
      var pid := ps[i].id;
      if pid !in q1 || pid !in q2 {
        assert ps[i] in ps;
        return Err(MissingAnswer(pid));
      }
      rows := rows + [Feedback(base + i, sid, pid, q1[pid], q2[pid])];
      i := i + 1;
    }
    r := Ok(rows);
  }

  /** The rows staged for session `ss[i]` attach to that session and to its own
      participants, with ids above every existing row, so committing them keeps
      the store consistent. */
  lemma PendingRowsConsistent(ss: seq<Session>, ps: seq<Participant>, fs: seq<Feedback>, i: nat,
                              q1: map<nat, string>, q2: map<nat, string>, rows: seq<Feedback>)
    requires Consistent(ss, ps, fs) && i < |ss|
    requires IsBatch(ParticipantsOf(ps, ss[i].id), ss[i].id, q1, q2, NextId(fs, FeedbackKey), rows)
    ensures Consistent(ss, ps, fs + rows)
  {
    var P := ParticipantsOf(ps, ss[i].id);
    assert ss[i] in ss;
    forall x | x in rows
      ensures HasSession(ss, x.sessionId) && HasRecipient(ps, x) && NextId(fs, FeedbackKey) <= x.id
    {
      var k :| 0 <= k < |rows| && rows[k] == x;
      assert P[k] in P;
    }
    assert IncreasingBy(rows, FeedbackKey) by {
      forall j, k | 0 <= j < k < |rows| ensures rows[j].id < rows[k].id {
      }
    }
    AddFeedbackConsistent(ss, ps, fs, rows);
  }

  /** Every row of a batch belongs to its session. */
  lemma BatchInSession(ps: seq<Participant>, sid: nat, q1: map<nat, string>, q2: map<nat, string>, base: nat,
                       rows: seq<Feedback>)
    requires IsBatch(ps, sid, q1, q2, base, rows)
    ensures forall f :: f in rows ==> f.sessionId == sid
  {
    forall f | f in rows ensures f.sessionId == sid {
      var k :| 0 <= k < |rows| && rows[k] == f;
    }
  }

  /** Counting rows addressed one by one to the participants `ps` on top of the
      rows `fs` raises the counter of name `n` by the number of participants called
      `n`: by one for each such participant, the submitter included, and by several
      when names are shared. */
  lemma {:induction false} BatchCounts(fs: seq<Feedback>, all: seq<Participant>, ps: seq<Participant>,
                                       rows: seq<Feedback>, n: string)
    requires |rows| == |ps|
    requires forall k :: 0 <= k < |ps| ==> Lookup(all, rows[k].recipientId) == Some(ps[k])
    ensures Submitted(fs + rows, all, n) == Submitted(fs, all, n) + |Filter(ps, (p: Participant) => p.name == n)|
    decreases |ps|
  {
    if ps == [] {
      assert fs + rows == fs;
    } else {
      var ps', p := ps[..|ps| - 1], ps[|ps| - 1];
      var rows', row := rows[..|rows| - 1], rows[|rows| - 1];
      assert CreditedTo(all, row, n) <==> p.name == n;
      BatchCounts(fs, all, ps', rows', n);
      AppendSnoc(fs, rows);
      assert ps == ps' + [p];
      SubmittedSnoc(fs + rows', row, all, n);
      FilterSnoc(ps', p, (p: Participant) => p.name == n);
    }
  }

  /** In a consistent store, committing the batch staged for session `ss[i]` raises
      that session's monitoring counter for each participant name by the number of
      the session's participants who bear it. */
  lemma SubmissionRaisesCounters(ss: seq<Session>, ps: seq<Participant>, fs: seq<Feedback>, i: nat,
                                 q1: map<nat, string>, q2: map<nat, string>, rows: seq<Feedback>, n: string)
    requires Consistent(ss, ps, fs) && i < |ss|
    requires IsBatch(ParticipantsOf(ps, ss[i].id), ss[i].id, q1, q2, NextId(fs, FeedbackKey), rows)
    requires n in Names(ParticipantsOf(ps, ss[i].id))
    ensures var sid := ss[i].id;
            var P := ParticipantsOf(ps, sid);
            Monitor(P, FeedbackOf(fs + rows, sid), ps)[n].submitted
              == Monitor(P, FeedbackOf(fs, sid), ps)[n].submitted + |Filter(P, (p: Participant) => p.name == n)|
  {
    var sid := ss[i].id;
    var P := ParticipantsOf(ps, sid);
    BatchInSession(P, sid, q1, q2, NextId(fs, FeedbackKey), rows);
    AppendToSession(fs, rows, sid);
    forall k | 0 <= k < |P| ensures Lookup(ps, rows[k].recipientId) == Some(P[k]) {
      assert P[k] in P;
      IncreasingUnique(ps, ParticipantKey, P[k], Lookup(ps, P[k].id).value);
    }
    BatchCounts(FeedbackOf(fs, sid), ps, P, rows, n);
  }

  class Store {
    var sessions: seq<Session>
    var participants: seq<Participant>
    var feedback: seq<Feedback>

    ghost predicate Valid()
      reads this
    {
      Consistent(sessions, participants, feedback)
    }

    constructor ()
      ensures Valid()
      ensures sessions == [] && participants == [] && feedback == []
    {
      sessions, participants, feedback := [], [], [];
      EmptyConsistent();
    }

    /** `create_session`: the token comes from the caller (the random generator).
        The new session is not started; a token already in use fails at commit. */
    method CreateSession(token: string, name: string) returns (r: Result<nat>)
      requires Valid() && IsToken(token)
      modifies this
      ensures Valid()
      ensures participants == old(participants) && feedback == old(feedback)
      ensures (exists s :: s in old(sessions) && s.token == token) ==>
                r == Err(DuplicateToken) && sessions == old(sessions)
      ensures (forall s :: s in old(sessions) ==> s.token != token) ==>
                && r == Ok(NextId(old(sessions), SessionKey))
                && sessions == old(sessions) + [Session(r.value, token, name, false)]
    {
      if FindToken(sessions, token).Some? {
        return Err(DuplicateToken);
      }
      var s := Session(NextId(sessions, SessionKey), token, name, false);
      AddSessionConsistent(sessions, participants, feedback, s);
      sessions := sessions + [s];
      r := Ok(s.id);
    }

    /** `register_feedback` (POST): adds a participant to the session with this
        token, whether or not the session has started; names need not be unique. */
    method Register(token: string, name: string) returns (r: Result<nat>)
      requires Valid()
      modifies this
      ensures Valid()
      ensures sessions == old(sessions) && feedback == old(feedback)
      ensures match FindToken(old(sessions), token)
              case None => r == Err(SessionNotFound) && participants == old(participants)
              case Some(i) =>
                && r == Ok(NextId(old(participants), ParticipantKey))
                && participants == old(participants) + [Participant(r.value, old(sessions)[i].id, name)]
    {
      var found := FindToken(sessions, token);
      if found.None? {
        return Err(SessionNotFound);
      }
      var p := Participant(NextId(participants, ParticipantKey), sessions[found.value].id, name);
      assert sessions[found.value] in sessions;
      AddParticipantConsistent(sessions, participants, feedback, p);
      participants := participants + [p];
      r := Ok(p.id);
    }

    /** `admin_start_session` (POST): sets the flag, whatever its value was. */
    method Start(token: string) returns (r: Result<()>)
      requires Valid()
      modifies this
      ensures Valid()
      ensures participants == old(participants) && feedback == old(feedback)
      ensures match FindToken(old(sessions), token)
              case None => r == Err(SessionNotFound) && sessions == old(sessions)
              case Some(i) => r == Ok(()) && sessions == old(sessions)[i := old(sessions)[i].(started := true)]
      ensures IsStarted(token) <==> r.Ok?
    {
      var found := FindToken(sessions, token);
      if found.None? {
        return Err(SessionNotFound);
      }
      SetStartedConsistent(sessions, participants, feedback, found.value, true);
      sessions := sessions[found.value := sessions[found.value].(started := true)];
      assert sessions[found.value] in sessions;
      r := Ok(());
    }

    /** `close_session`: clears the same flag, so a closed session reads as one
        that never started. */
    method Close(token: string) returns (r: Result<()>)
      requires Valid()
      modifies this
      ensures Valid()
      ensures participants == old(participants) && feedback == old(feedback)
      ensures match FindToken(old(sessions), token)
              case None => r == Err(SessionNotFound) && sessions == old(sessions)
              case Some(i) => r == Ok(()) && sessions == old(sessions)[i := old(sessions)[i].(started := false)]
      ensures !IsStarted(token)
    {
      var found := FindToken(sessions, token);
      if found.None? {
        return Err(SessionNotFound);
      }
      SetStartedConsistent(sessions, participants, feedback, found.value, false);
      sessions := sessions[found.value := sessions[found.value].(started := false)];
      r := Ok(());
    }

    /** `check_session_started`: an unknown token reads as not started. */
    function IsStarted(token: string): (b: bool)
      requires Valid()
      reads this
      ensures b <==> exists s :: s in sessions && s.token == token && s.started
    {
      match FindToken(sessions, token)
      case None => false
      case Some(i) =>
        assert forall s :: s in sessions && s.token == token ==> s == sessions[i];
        sessions[i].started
    }

    /** The participants of the session with this token, as the registration,
        start and submission pages list them: in id order, which is the order in
        which they registered. */
    function SessionParticipants(token: string): (r: Result<seq<Participant>>)
      requires Valid()
      reads this
      ensures FindToken(sessions, token).None? <==> r == Err(SessionNotFound)
      ensures FindToken(sessions, token).Some? <==> r.Ok?
      ensures r.Ok? ==>
                var sid := sessions[FindToken(sessions, token).value].id;
                && IncreasingBy(r.value, ParticipantKey)
                && forall p :: p in r.value <==> p in participants && p.sessionId == sid
    {
      match FindToken(sessions, token)
      case None => Err(SessionNotFound)
      case Some(i) =>
        var sid := sessions[i].id;
        FilterIncreasing(participants, ParticipantKey, (p: Participant) => p.sessionId == sid);
        Ok(ParticipantsOf(participants, sid))
    }

    /** `start_feedback` (POST): one row per participant of the session, the
        submitter included, in participant order, with that participant's two
        answers from the form. The flag is not consulted. A missing answer aborts
        the request before the commit, so no row is added. */
    method SubmitFeedback(token: string, q1: map<nat, string>, q2: map<nat, string>) returns (r: Result<()>)
      requires Valid()
      modifies this
      ensures Valid()
      ensures sessions == old(sessions) && participants == old(participants)
      ensures FindToken(sessions, token).None? ==> r == Err(SessionNotFound) && feedback == old(feedback)
      ensures FindToken(sessions, token).Some? ==>
                var sid := sessions[FindToken(sessions, token).value].id;
                var P := ParticipantsOf(participants, sid);
                var base := NextId(old(feedback), FeedbackKey);
                && (r.Ok? <==> forall p :: p in P ==> Answered(q1, q2, p.id))
                && (r.Err? ==>
                      feedback == old(feedback) && r.error.MissingAnswer? && FirstMissing(P, q1, q2, r.error.participantId))
                && (r.Ok? ==>
                      && |feedback| >= |old(feedback)|
                      && feedback[..|old(feedback)|] == old(feedback)
                      && IsBatch(P, sid, q1, q2, NextId(old(feedback), FeedbackKey), feedback[|old(feedback)|..])
                      && FeedbackOf(feedback, sid) == FeedbackOf(old(feedback), sid) + feedback[|old(feedback)|..])
      ensures forall other :: FindToken(sessions, token).Some? && other != sessions[FindToken(sessions, token).value].id ==>
                FeedbackOf(feedback, other) == FeedbackOf(old(feedback), other)
    {
      var found := FindToken(sessions, token);
      if found.None? {
        return Err(SessionNotFound);
      }
      var sid := sessions[found.value].id;
      var P := ParticipantsOf(participants, sid);
      var base := NextId(feedback, FeedbackKey);
      var pending := PendingRows(P, sid, q1, q2, base);
      if pending.Err? {
        return Err(pending.error);
      }
      var rows := pending.value;
      PendingRowsConsistent(sessions, participants, feedback, found.value, q1, q2, rows);
      BatchInSession(P, sid, q1, q2, base, rows);
      AppendToSession(feedback, rows, sid);
      ghost var before := feedback;
      feedback := feedback + rows;
      assert feedback[..|before|] == before && feedback[|before|..] == rows;
      r := Ok(());
    }

    /** `delete_session`: removes the session with this id, its feedback and its
        participants at once. */
    method Delete(id: nat) returns (r: Result<()>)
      requires Valid()
      modifies this
      ensures Valid()
      ensures FindSession(old(sessions), id).None? ==>
                && r == Err(SessionNotFound)
                && sessions == old(sessions) && participants == old(participants) && feedback == old(feedback)
      ensures FindSession(old(sessions), id).Some? ==>
                && r == Ok(())
                && sessions == SessionsExcept(old(sessions), id)
                && participants == ParticipantsOutside(old(participants), id)
                && feedback == FeedbackOutside(old(feedback), id)
      ensures forall s :: s in sessions ==> s.id != id
      ensures forall p :: p in participants ==> p.sessionId != id
      ensures forall f :: f in feedback ==> f.sessionId != id
      ensures forall other :: other != id ==>
                && ParticipantsOf(participants, other) == ParticipantsOf(old(participants), other)
                && FeedbackOf(feedback, other) == FeedbackOf(old(feedback), other)
    {
      if FindSession(sessions, id).None? {
        return Err(SessionNotFound);
      }
      DeleteConsistent(sessions, participants, feedback, id);
      forall other | other != id {
        DeleteKeepsOtherSessions(participants, feedback, id, other);
      }
      feedback := FeedbackOutside(feedback, id);
      participants := ParticipantsOutside(participants, id);
      sessions := SessionsExcept(sessions, id);
      r := Ok(());
    }

    /** `monitor_feedback`: one counter per participant name, set to the session's
        participant count less one for the total, then bumped once for every
        feedback row of the session filed under that name. */
    method MonitorView(token: string) returns (r: Result<map<string, Counts>>)
      requires Valid()
      ensures FindToken(sessions, token).None? ==> r == Err(SessionNotFound)
      ensures FindToken(sessions, token).Some? ==>
                var sid := sessions[FindToken(sessions, token).value].id;
                var P := ParticipantsOf(participants, sid);
                && r == Ok(Monitor(P, FeedbackOf(feedback, sid), participants))
                && r.value.Keys == Names(P)
                && forall n :: n in r.value ==> r.value[n].total == |P| - 1
    {
      var found := FindToken(sessions, token);
      if found.None? {
        return Err(SessionNotFound);
      }
      var sid := sessions[found.value].id;
      var P := ParticipantsOf(participants, sid);
      var F := FeedbackOf(feedback, sid);
      forall f | f in F && Lookup(participants, f.recipientId).Some?
        ensures Lookup(participants, f.recipientId).value.name in Names(P)
      {
        RecipientInSession(sessions, participants, feedback, sid, f);
      }
      var data := CountSubmissions(P, F, participants);
      r := Ok(data);
    }

    /** `review_feedback`: the session's feedback rows in order, each appended to
        the list of its recipient's name. */
    method ReviewView(token: string) returns (r: Result<map<string, seq<Entry>>>)
      requires Valid()
      ensures FindToken(sessions, token).None? ==> r == Err(SessionNotFound)
      ensures FindToken(sessions, token).Some? ==>
                var sid := sessions[FindToken(sessions, token).value].id;
                r == Ok(Review(FeedbackOf(feedback, sid), participants))
    {
      var found := FindToken(sessions, token);
      if found.None? {
        return Err(SessionNotFound);
      }
      var sid := sessions[found.value].id;
      var F := FeedbackOf(feedback, sid);
      forall f | f in F ensures Lookup(participants, f.recipientId).Some? {
        RecipientInSession(sessions, participants, feedback, sid, f);
      }
      var data := GroupByRecipient(F, participants);
      r := Ok(data);
    }

    /** The rows behind `download_feedback`: the session is found by token and the
        participant by id in the whole participant table; the rows are those of
        that session addressed to that participant, in table order. */
    function FeedbackFor(token: string, participantId: nat): (r: Result<seq<Feedback>>)
      requires Valid()
      reads this
      ensures FindToken(sessions, token).None? ==> r == Err(SessionNotFound)
      ensures FindToken(sessions, token).Some? && Lookup(participants, participantId).None? ==>
                r == Err(ParticipantNotFound)
      ensures FindToken(sessions, token).Some? && Lookup(participants, participantId).Some? ==> r.Ok?
      ensures r.Ok? ==>
                && FindToken(sessions, token).Some? && Lookup(participants, participantId).Some?
                && var sid := sessions[FindToken(sessions, token).value].id;
                && IncreasingBy(r.value, FeedbackKey)
                && forall f :: f in r.value <==> f in feedback && f.sessionId == sid && f.recipientId == participantId
    {
      match FindToken(sessions, token)
      case None => Err(SessionNotFound)
      case Some(i) =>
        match Lookup(participants, participantId)
        case None => Err(ParticipantNotFound)
        case Some(p) =>
          var sid := sessions[i].id;
          var F := FeedbackOf(feedback, sid);
          FilterIncreasing(feedback, FeedbackKey, (f: Feedback) => f.sessionId == sid);
          FilterIncreasing(F, FeedbackKey, (f: Feedback) => f.recipientId == p.id);
          Ok(RowsFor(F, p.id))
    }
  }
}
