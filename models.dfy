/** The three tables of the feedback application and the constraints that hold
    between them: unique, well-formed session tokens, ids in insertion order, and
    every participant and feedback row attached to an existing session (a feedback
    row to a recipient of that same session). */
module Models {
  import opened Collections

  datatype Session = Session(id: nat, token: string, name: string, started: bool)

  datatype Participant = Participant(id: nat, sessionId: nat, name: string)

  /** One answer pair about one recipient; the submitter is not recorded. */
  datatype Feedback = Feedback(id: nat, sessionId: nat, recipientId: nat, question1: string, question2: string)

  function SessionKey(s: Session): nat { s.id }
  function ParticipantKey(p: Participant): nat { p.id }
  function FeedbackKey(f: Feedback): nat { f.id }

  /** A session token is eight characters drawn from the ASCII letters and digits. */
  const TokenLength: nat := 8

  predicate IsTokenChar(c: char)
  {
    'A' <= c <= 'Z' || 'a' <= c <= 'z' || '0' <= c <= '9'
  }

  predicate IsToken(t: string)
  {
    |t| == TokenLength && forall i :: 0 <= i < |t| ==> IsTokenChar(t[i])
  }

  /** `filter_by(token=...).first()`: the position of the session with that token. */
  function FindToken(ss: seq<Session>, token: string): (r: Option<nat>)
    ensures r.Some? ==> r.value < |ss| && ss[r.value].token == token
                        && forall j :: 0 <= j < r.value ==> ss[j].token != token
    ensures r.None? <==> forall s :: s in ss ==> s.token != token
  {
    FindFirst(ss, (s: Session) => s.token == token)
  }

  /** `query.get(id)` on the session table: the position of the session with that id. */
  function FindSession(ss: seq<Session>, id: nat): (r: Option<nat>)
    ensures r.Some? ==> r.value < |ss| && ss[r.value].id == id
                        && forall j :: 0 <= j < r.value ==> ss[j].id != id
    ensures r.None? <==> forall s :: s in ss ==> s.id != id
  {
    FindFirst(ss, (s: Session) => s.id == id)
  }

  /** `Participant.query.filter_by(session_id=sid)`, in table order. */
  function ParticipantsOf(ps: seq<Participant>, sid: nat): seq<Participant>
  {
    Filter(ps, (p: Participant) => p.sessionId == sid)
  }

  /** `Feedback.query.filter_by(session_id=sid)`, in table order. */
  function FeedbackOf(fs: seq<Feedback>, sid: nat): seq<Feedback>
  {
    Filter(fs, (f: Feedback) => f.sessionId == sid)
  }

  /** The feedback rows whose recipient is participant `rid`. */
  function RowsFor(fs: seq<Feedback>, rid: nat): seq<Feedback>
  {
    Filter(fs, (f: Feedback) => f.recipientId == rid)
  }

  /** What a bulk delete of session `sid` leaves in each table. */
  function SessionsExcept(ss: seq<Session>, sid: nat): seq<Session>
  {
    Filter(ss, (s: Session) => s.id != sid)
  }

  function ParticipantsOutside(ps: seq<Participant>, sid: nat): seq<Participant>
  {
    Filter(ps, (p: Participant) => p.sessionId != sid)
  }

  function FeedbackOutside(fs: seq<Feedback>, sid: nat): seq<Feedback>
  {
    Filter(fs, (f: Feedback) => f.sessionId != sid)
  }

  ghost predicate HasSession(ss: seq<Session>, id: nat)
  {
    exists s :: s in ss && s.id == id
  }

  /** The recipient of `f` is a participant of the session `f` belongs to. */
  ghost predicate HasRecipient(ps: seq<Participant>, f: Feedback)
  {
    exists q :: q in ps && q.id == f.recipientId && q.sessionId == f.sessionId
  }

  /** The constraints of the schema together with the ones the handlers maintain. */
  ghost predicate Consistent(ss: seq<Session>, ps: seq<Participant>, fs: seq<Feedback>): (b: bool)
    ensures b ==> forall i, j :: 0 <= i < |ss| && 0 <= j < |ss| && ss[i].id == ss[j].id ==> i == j
    ensures b ==> forall i, j :: 0 <= i < |ps| && 0 <= j < |ps| && ps[i].id == ps[j].id ==> i == j
    ensures b ==> forall i, j :: 0 <= i < |fs| && 0 <= j < |fs| && fs[i].id == fs[j].id ==> i == j
  {
    && IncreasingBy(ss, SessionKey)
    && IncreasingBy(ps, ParticipantKey)
    && IncreasingBy(fs, FeedbackKey)
    && (forall s :: s in ss ==> IsToken(s.token))
    && (forall s, t :: s in ss && t in ss && s.token == t.token ==> s == t)
    && (forall p :: p in ps ==> HasSession(ss, p.sessionId))
    && (forall f :: f in fs ==> HasSession(ss, f.sessionId) && HasRecipient(ps, f))
  }

  lemma EmptyConsistent()
    ensures Consistent([], [], [])
  {
  }

  /** Adding a session with a fresh id and an unused, well-formed token keeps the store consistent. */
  lemma AddSessionConsistent(ss: seq<Session>, ps: seq<Participant>, fs: seq<Feedback>, s: Session)
    requires Consistent(ss, ps, fs)
    requires s.id == NextId(ss, SessionKey) && IsToken(s.token)
    requires FindToken(ss, s.token).None?
    ensures Consistent(ss + [s], ps, fs)
  {
    IncreasingAppend(ss, [s], SessionKey);
    forall x | x in ss ensures x.token != s.token {
      var i :| 0 <= i < |ss| && ss[i] == x;
    }
    HasSessionGrows(ss, [s]);
  }

  /** Adding sessions keeps every existing session id resolvable. */
  lemma HasSessionGrows(ss: seq<Session>, more: seq<Session>)
    ensures forall id :: HasSession(ss, id) ==> HasSession(ss + more, id)
  {
    forall id | HasSession(ss, id) ensures HasSession(ss + more, id) {
      var t :| t in ss && t.id == id;
      assert t in ss + more;
    }
  }

  /** Adding a participant with a fresh id to an existing session keeps the store consistent. */
  lemma AddParticipantConsistent(ss: seq<Session>, ps: seq<Participant>, fs: seq<Feedback>, p: Participant)
    requires Consistent(ss, ps, fs)
    requires p.id == NextId(ps, ParticipantKey) && HasSession(ss, p.sessionId)
    ensures Consistent(ss, ps + [p], fs)
  {
    IncreasingAppend(ps, [p], ParticipantKey);
    forall f | f in fs ensures HasRecipient(ps + [p], f) {
      var q :| q in ps && q.id == f.recipientId && q.sessionId == f.sessionId;
      assert q in ps + [p];
    }
  }

  /** Appending feedback rows with fresh increasing ids, each about a recipient of
      its own (existing) session, keeps the store consistent. */
  lemma AddFeedbackConsistent(ss: seq<Session>, ps: seq<Participant>, fs: seq<Feedback>, rows: seq<Feedback>)
    requires Consistent(ss, ps, fs)
    requires IncreasingBy(rows, FeedbackKey)
    requires forall r :: r in rows ==> NextId(fs, FeedbackKey) <= r.id
    requires forall r :: r in rows ==> HasSession(ss, r.sessionId) && HasRecipient(ps, r)
    ensures Consistent(ss, ps, fs + rows)
  {
    IncreasingAppend(fs, rows, FeedbackKey);
  }

  /** `ss'` holds the same sessions as `ss`, position by position, up to fields
      other than the id and the token. */
  ghost predicate SameKeys(ss: seq<Session>, ss': seq<Session>)
  {
    |ss'| == |ss| && forall j :: 0 <= j < |ss| ==> ss'[j].id == ss[j].id && ss'[j].token == ss[j].token
  }

  lemma SameKeysSessions(ss: seq<Session>, ss': seq<Session>)
    requires SameKeys(ss, ss')
    requires IncreasingBy(ss, SessionKey) && forall s, t :: s in ss && t in ss && s.token == t.token ==> s == t
    ensures IncreasingBy(ss', SessionKey) && forall s, t :: s in ss' && t in ss' && s.token == t.token ==> s == t
  {
    assert IncreasingBy(ss', SessionKey) by {
      forall j, k | 0 <= j < k < |ss'| ensures ss'[j].id < ss'[k].id {
        assert ss[j].id < ss[k].id;
      }
    }
    forall s, t | s in ss' && t in ss' && s.token == t.token ensures s == t {
      var j :| 0 <= j < |ss'| && ss'[j] == s;
      var k :| 0 <= k < |ss'| && ss'[k] == t;
      assert ss[j] in ss && ss[k] in ss;
      assert ss[j] == ss[k];
      IncreasingUnique(ss, SessionKey, ss[j], ss[k]);
    }
  }

  lemma SameKeysTokens(ss: seq<Session>, ss': seq<Session>)
    requires SameKeys(ss, ss') && forall s :: s in ss ==> IsToken(s.token)
    ensures forall s :: s in ss' ==> IsToken(s.token)
  {
    forall s | s in ss' ensures IsToken(s.token) {
      var j :| 0 <= j < |ss'| && ss'[j] == s;
      assert ss[j] in ss;
    }
  }

  lemma SameKeysHasSession(ss: seq<Session>, ss': seq<Session>)
    requires SameKeys(ss, ss')
    ensures forall id :: HasSession(ss, id) ==> HasSession(ss', id)
  {
    forall id | HasSession(ss, id) ensures HasSession(ss', id) {
      var s :| s in ss && s.id == id;
      var j :| 0 <= j < |ss| && ss[j] == s;
      assert ss'[j] in ss';
    }
  }

  /** Changing the `started` flag of one session keeps the store consistent. */
  lemma SetStartedConsistent(ss: seq<Session>, ps: seq<Participant>, fs: seq<Feedback>, i: nat, flag: bool)
    requires Consistent(ss, ps, fs) && i < |ss|
    ensures Consistent(ss[i := ss[i].(started := flag)], ps, fs)
  {
    var ss' := ss[i := ss[i].(started := flag)];
    assert SameKeys(ss, ss');
    SameKeysSessions(ss, ss');
    SameKeysTokens(ss, ss');
    SameKeysHasSession(ss, ss');
  }

  /** Deleting a session together with its participants and feedback keeps the
      store consistent: nothing that remains referred to the deleted session. */
  lemma DeleteConsistent(ss: seq<Session>, ps: seq<Participant>, fs: seq<Feedback>, sid: nat)
    requires Consistent(ss, ps, fs)
    ensures Consistent(SessionsExcept(ss, sid), ParticipantsOutside(ps, sid), FeedbackOutside(fs, sid))
  {
    var ss', ps', fs' := SessionsExcept(ss, sid), ParticipantsOutside(ps, sid), FeedbackOutside(fs, sid);
    FilterIncreasing(ss, SessionKey, (s: Session) => s.id != sid);
    FilterIncreasing(ps, ParticipantKey, (p: Participant) => p.sessionId != sid);
    FilterIncreasing(fs, FeedbackKey, (f: Feedback) => f.sessionId != sid);
    forall p | p in ps' ensures HasSession(ss', p.sessionId) {
      var s :| s in ss && s.id == p.sessionId;
      assert s in ss';
    }
    forall f | f in fs' ensures HasSession(ss', f.sessionId) && HasRecipient(ps', f) {
      var s :| s in ss && s.id == f.sessionId;
      assert s in ss';
      var q :| q in ps && q.id == f.recipientId && q.sessionId == f.sessionId;
      assert q in ps';
    }
  }

  /** Deleting session `sid` leaves the participants and the feedback of every other
      session exactly as they were, order included. */
  lemma DeleteKeepsOtherSessions(ps: seq<Participant>, fs: seq<Feedback>, sid: nat, other: nat)
    requires other != sid
    ensures ParticipantsOf(ParticipantsOutside(ps, sid), other) == ParticipantsOf(ps, other)
    ensures FeedbackOf(FeedbackOutside(fs, sid), other) == FeedbackOf(fs, other)
  {
    FilterNested(ps, (p: Participant) => p.sessionId != sid, (p: Participant) => p.sessionId == other);
    FilterNested(fs, (f: Feedback) => f.sessionId != sid, (f: Feedback) => f.sessionId == other);
  }

  /** Appending rows that all belong to session `sid` extends that session's
      feedback by exactly those rows, in order, and leaves every other session's
      feedback as it was. */
  lemma AppendToSession(fs: seq<Feedback>, rows: seq<Feedback>, sid: nat)
    requires forall f :: f in rows ==> f.sessionId == sid
    ensures FeedbackOf(fs + rows, sid) == FeedbackOf(fs, sid) + rows
    ensures forall other :: other != sid ==> FeedbackOf(fs + rows, other) == FeedbackOf(fs, other)
  {
    FilterAppend(fs, rows, (f: Feedback) => f.sessionId == sid);
    FilterAll(rows, (f: Feedback) => f.sessionId == sid);
    forall other | other != sid ensures FeedbackOf(fs + rows, other) == FeedbackOf(fs, other) {
      FilterAppend(fs, rows, (f: Feedback) => f.sessionId == other);
      FilterNone(rows, (f: Feedback) => f.sessionId == other);
      assert FeedbackOf(fs, other) + [] == FeedbackOf(fs, other);
    }
  }

  /** In a consistent store a token names at most one session, so the first match is the only one. */
  lemma TokenNamesOneSession(ss: seq<Session>, ps: seq<Participant>, fs: seq<Feedback>, token: string, j: nat)
    requires Consistent(ss, ps, fs)
    requires j < |ss| && ss[j].token == token
    ensures FindToken(ss, token) == Some(j)
  {
    var found := FindToken(ss, token);
    assert found.Some?;
    var i := found.value;
    assert ss[i] == ss[j];
    IncreasingUnique(ss, SessionKey, ss[i], ss[j]);
    assert !(i < j) && !(j < i);
  }
}
