/** What the monitoring and review pages compute from the store. Both views look
    each feedback row's recipient up by id in the whole participant table and then
    file the row under that participant's NAME, so two participants of one session
    who share a name are merged into one entry. */
module Aggregation {
  import opened Collections
  import opened Models

  /** One monitoring entry: rows received so far, and the participant count less one. */
  datatype Counts = Counts(submitted: nat, total: int)

  /** One review entry, as the review page lists it. */
  datatype Entry = Entry(question1: string, question2: string, recipientId: nat)

  /** `Participant.query.get(id)`: the participant with that primary key. */
  function Lookup(ps: seq<Participant>, id: nat): (r: Option<Participant>)
    ensures r.Some? ==> r.value in ps && r.value.id == id
    ensures r.None? ==> forall p :: p in ps ==> p.id != id
  {
    match FindFirst(ps, (p: Participant) => p.id == id)
    case None => None
    case Some(i) => Some(ps[i])
  }

  /** The name a row is filed under: that of its recipient, if the recipient exists. */
  predicate CreditedTo(all: seq<Participant>, f: Feedback, n: string)
  {
    var q := Lookup(all, f.recipientId);
    q.Some? && q.value.name == n
  }

  function Names(ps: seq<Participant>): set<string>
  {
    set p | p in ps :: p.name
  }

  /** The number of rows of `fs` filed under name `n`. */
  function Submitted(fs: seq<Feedback>, all: seq<Participant>, n: string): (r: nat)
    ensures r <= |fs|
  {
    if fs == [] then 0
    else Submitted(fs[..|fs| - 1], all, n) + (if CreditedTo(all, fs[|fs| - 1], n) then 1 else 0)
  }

  /** The number of rows of `fs` whose recipient exists. */
  function Attributed(fs: seq<Feedback>, all: seq<Participant>): nat
  {
    if fs == [] then 0
    else Attributed(fs[..|fs| - 1], all) + (if Lookup(all, fs[|fs| - 1].recipientId).Some? then 1 else 0)
  }

  /** The monitoring counters after the rows `fs` have been counted, one per name. */
  function Tally(names: set<string>, total: int, fs: seq<Feedback>, all: seq<Participant>): map<string, Counts>
  {
    map n | n in names :: Counts(Submitted(fs, all, n), total)
  }

  /** The monitoring view of a session with participants `ps` and feedback rows `fs`:
      one counter per participant name, none of which exceeds the number of rows. */
  function Monitor(ps: seq<Participant>, fs: seq<Feedback>, all: seq<Participant>): (r: map<string, Counts>)
    ensures r.Keys == Names(ps)
    ensures forall n :: n in r ==> r[n].total == |ps| - 1 && r[n].submitted <= |fs|
  {
    Tally(Names(ps), |ps| - 1, fs, all)
  }

  function ToEntry(f: Feedback): Entry
  {
    Entry(f.question1, f.question2, f.recipientId)
  }

  /** The review entries filed under name `n`, in row order. */
  function Entries(fs: seq<Feedback>, all: seq<Participant>, n: string): seq<Entry>
  {
    if fs == [] then []
    else
      Entries(fs[..|fs| - 1], all, n)
        + (if CreditedTo(all, fs[|fs| - 1], n) then [ToEntry(fs[|fs| - 1])] else [])
  }

  /** The review view of a session with feedback rows `fs`: each row in turn is
      appended to the list of its recipient's name, which is created on first use.
      (A row without a recipient is passed over here; the review page would fail on it.) */
  function Review(fs: seq<Feedback>, all: seq<Participant>): (r: map<string, seq<Entry>>)
    ensures forall n :: n in r ==> 0 < |r[n]| <= |fs|
  {
    if fs == [] then map[]
    else
      var m, f := Review(fs[..|fs| - 1], all), fs[|fs| - 1];
      match Lookup(all, f.recipientId)
      case None => m
      case Some(q) => m[q.name := (if q.name in m then m[q.name] else []) + [ToEntry(f)]]
  }

  // ---- one more row ----

  lemma SubmittedSnoc(fs: seq<Feedback>, f: Feedback, all: seq<Participant>, n: string)
    ensures Submitted(fs + [f], all, n) == Submitted(fs, all, n) + (if CreditedTo(all, f, n) then 1 else 0)
  {
    assert (fs + [f])[..|fs|] == fs;
  }

  lemma EntriesSnoc(fs: seq<Feedback>, f: Feedback, all: seq<Participant>, n: string)
    ensures Entries(fs + [f], all, n) == Entries(fs, all, n) + (if CreditedTo(all, f, n) then [ToEntry(f)] else [])
  {
    assert (fs + [f])[..|fs|] == fs;
  }

  /** Counting one more row bumps the counter of its recipient's name, if the
      recipient exists, and no other counter. */
  lemma TallySnoc(names: set<string>, total: int, fs: seq<Feedback>, f: Feedback, all: seq<Participant>)
    ensures var q := Lookup(all, f.recipientId);
            var m := Tally(names, total, fs, all);
            Tally(names, total, fs + [f], all)
              == if q.Some? && q.value.name in names
                 then m[q.value.name := Counts(m[q.value.name].submitted + 1, total)]
                 else m
  {
    forall n | n in names {
      SubmittedSnoc(fs, f, all, n);
    }
  }

  lemma ReviewSnoc(fs: seq<Feedback>, f: Feedback, all: seq<Participant>)
    ensures var m := Review(fs, all);
            Review(fs + [f], all)
              == match Lookup(all, f.recipientId)
                 case None => m
                 case Some(q) => m[q.name := (if q.name in m then m[q.name] else []) + [ToEntry(f)]]
  {
    assert (fs + [f])[..|fs|] == fs;
  }

  // ---- properties of the monitoring view ----

  /** With every counting row's name enumerated once in `ks`, the counters add up
      to the number of rows whose recipient exists. */
  lemma {:induction false} SubmittedSum(ks: seq<string>, fs: seq<Feedback>, all: seq<Participant>)
    requires NoDuplicates(ks)
    requires forall f :: f in fs && Lookup(all, f.recipientId).Some? ==> Lookup(all, f.recipientId).value.name in ks
    ensures Sum(ks, n => Submitted(fs, all, n)) == Attributed(fs, all)
    decreases |fs|
  {
    if fs == [] {
      SumZero(ks, n => Submitted(fs, all, n));
    } else {
      var fs', f := fs[..|fs| - 1], fs[|fs| - 1];
      assert fs == fs' + [f];
      SubmittedSum(ks, fs', all);
      forall n | n in ks ensures Submitted(fs, all, n) == Submitted(fs', all, n) + (if CreditedTo(all, f, n) then 1 else 0) {
        SubmittedSnoc(fs', f, all, n);
      }
      var q := Lookup(all, f.recipientId);
      if q.Some? {
        SumBump(ks, n => Submitted(fs', all, n), n => Submitted(fs, all, n), q.value.name);
      } else {
        SumEqual(ks, n => Submitted(fs', all, n), n => Submitted(fs, all, n));
      }
    }
  }

  /** The monitoring counters, summed over the names (each enumerated once), equal
      the number of the session's rows whose recipient exists, provided every such
      recipient's name is a participant name (otherwise the monitoring page would fail). */
  lemma MonitorSum(ps: seq<Participant>, fs: seq<Feedback>, all: seq<Participant>, ks: seq<string>)
    requires NoDuplicates(ks) && forall n :: n in ks <==> n in Names(ps)
    requires forall f :: f in fs && Lookup(all, f.recipientId).Some? ==> Lookup(all, f.recipientId).value.name in Names(ps)
    ensures var m := Monitor(ps, fs, all);
            Sum(ks, n => if n in m then m[n].submitted else 0) == Attributed(fs, all)
  {
    var m := Monitor(ps, fs, all);
    SubmittedSum(ks, fs, all);
    SumEqual(ks, n => if n in m then m[n].submitted else 0, n => Submitted(fs, all, n));
  }

  /** When every row's recipient exists, every row is counted. */
  lemma {:induction false} AttributedAll(fs: seq<Feedback>, all: seq<Participant>)
    requires forall f :: f in fs ==> Lookup(all, f.recipientId).Some?
    ensures Attributed(fs, all) == |fs|
    decreases |fs|
  {
    if fs != [] {
      var fs' := fs[..|fs| - 1];
      assert forall f :: f in fs' ==> f in fs;
      AttributedAll(fs', all);
    }
  }

  /** When the names in `ps` are distinct (and so are the ids), the counter of each
      participant is the number of rows addressed to that participant. */
  lemma {:induction false} SubmittedByDistinctName(fs: seq<Feedback>, all: seq<Participant>, ps: seq<Participant>, p: Participant)
    requires p in ps
    requires forall x, y :: x in ps && y in ps && x.name == y.name ==> x == y
    requires forall x, y :: x in ps && y in ps && x.id == y.id ==> x == y
    requires forall f :: f in fs ==> Lookup(all, f.recipientId).Some? && Lookup(all, f.recipientId).value in ps
    ensures Submitted(fs, all, p.name) == |RowsFor(fs, p.id)|
    decreases |fs|
  {
    if fs != [] {
      var fs', f := fs[..|fs| - 1], fs[|fs| - 1];
      assert fs == fs' + [f];
      assert forall g :: g in fs' ==> g in fs;
      SubmittedByDistinctName(fs', all, ps, p);
      SubmittedSnoc(fs', f, all, p.name);
      FilterSnoc(fs', f, (g: Feedback) => g.recipientId == p.id);
    }
  }

  // ---- properties of the review view ----

  /** Order is kept: the entries of older rows precede those of newer rows. */
  lemma {:induction false} EntriesAppend(a: seq<Feedback>, b: seq<Feedback>, all: seq<Participant>, n: string)
    ensures Entries(a + b, all, n) == Entries(a, all, n) + Entries(b, all, n)
    decreases |b|
  {
    if b == [] {
      assert a + b == a;
    } else {
      var b', f := b[..|b| - 1], b[|b| - 1];
      assert a + b == (a + b') + [f];
      assert b == b' + [f];
      EntriesAppend(a, b', all, n);
      EntriesSnoc(a + b', f, all, n);
      EntriesSnoc(b', f, all, n);
    }
  }

  /** Every review entry is the answer pair and recipient id of a row filed under its name. */
  lemma {:induction false} EntriesFromRows(fs: seq<Feedback>, all: seq<Participant>, n: string, e: Entry)
    requires e in Entries(fs, all, n)
    ensures exists f :: f in fs && CreditedTo(all, f, n) && e == Entry(f.question1, f.question2, f.recipientId)
    decreases |fs|
  {
    var fs', f := fs[..|fs| - 1], fs[|fs| - 1];
    assert fs == fs' + [f];
    if e in Entries(fs', all, n) {
      EntriesFromRows(fs', all, n, e);
      var g :| g in fs' && CreditedTo(all, g, n) && e == Entry(g.question1, g.question2, g.recipientId);
      assert g in fs;
    } else {
      assert CreditedTo(all, f, n) && e == ToEntry(f);
    }
  }

  /** With every recipient's name enumerated once in `ks`, the lists together hold
      one entry per row whose recipient exists. */
  lemma {:induction false} EntriesSum(ks: seq<string>, fs: seq<Feedback>, all: seq<Participant>)
    requires NoDuplicates(ks)
    requires forall f :: f in fs && Lookup(all, f.recipientId).Some? ==> Lookup(all, f.recipientId).value.name in ks
    ensures Sum(ks, n => |Entries(fs, all, n)|) == Attributed(fs, all)
    decreases |fs|
  {
    if fs == [] {
      SumZero(ks, n => |Entries(fs, all, n)|);
    } else {
      var fs', f := fs[..|fs| - 1], fs[|fs| - 1];
      assert fs == fs' + [f];
      EntriesSum(ks, fs', all);
      forall n | n in ks ensures |Entries(fs, all, n)| == |Entries(fs', all, n)| + (if CreditedTo(all, f, n) then 1 else 0) {
        EntriesSnoc(fs', f, all, n);
      }
      var q := Lookup(all, f.recipientId);
      if q.Some? {
        SumBump(ks, n => |Entries(fs', all, n)|, n => |Entries(fs, all, n)|, q.value.name);
      } else {
        SumEqual(ks, n => |Entries(fs', all, n)|, n => |Entries(fs, all, n)|);
      }
    }
  }

  /** Some entry is filed under `n` exactly when some row is credited to `n`. */
  lemma {:induction false} EntriesNonEmpty(fs: seq<Feedback>, all: seq<Participant>, n: string)
    ensures |Entries(fs, all, n)| > 0 <==> exists f :: f in fs && CreditedTo(all, f, n)
    decreases |fs|
  {
    if fs != [] {
      var fs', f := fs[..|fs| - 1], fs[|fs| - 1];
      assert fs == fs' + [f];
      EntriesNonEmpty(fs', all, n);
      EntriesSnoc(fs', f, all, n);
      if exists g :: g in fs && CreditedTo(all, g, n) {
        var g :| g in fs && CreditedTo(all, g, n);
        assert g in fs' || g == f;
      }
    }
  }

  /** The review view groups the rows by recipient name: its keys are exactly the
      names that have at least one row, and the list under each key holds the
      entries of that name's rows in row order. */
  lemma {:induction false} ReviewGroups(fs: seq<Feedback>, all: seq<Participant>, n: string)
    ensures n in Review(fs, all) <==> exists f :: f in fs && CreditedTo(all, f, n)
    ensures n in Review(fs, all) ==> Review(fs, all)[n] == Entries(fs, all, n)
    decreases |fs|
  {
    EntriesNonEmpty(fs, all, n);
    if fs != [] {
      var fs', f := fs[..|fs| - 1], fs[|fs| - 1];
      assert fs == fs' + [f];
      ReviewGroups(fs', all, n);
      EntriesNonEmpty(fs', all, n);
      ReviewSnoc(fs', f, all);
      EntriesSnoc(fs', f, all, n);
    }
  }

  /** When every row's recipient exists, the review lists (over its keys, each
      enumerated once) together hold exactly one entry per row. */
  lemma ReviewTotal(fs: seq<Feedback>, all: seq<Participant>, ks: seq<string>)
    requires forall f :: f in fs ==> Lookup(all, f.recipientId).Some?
    requires NoDuplicates(ks) && forall n :: n in ks <==> n in Review(fs, all)
    ensures var m := Review(fs, all);
            Sum(ks, n => if n in m then |m[n]| else 0) == |fs|
  {
    var m := Review(fs, all);
    forall f | f in fs ensures Lookup(all, f.recipientId).value.name in ks {
      ReviewGroups(fs, all, Lookup(all, f.recipientId).value.name);
    }
    forall n | n in ks ensures (if n in m then |m[n]| else 0) == |Entries(fs, all, n)| {
      ReviewGroups(fs, all, n);
    }
    EntriesSum(ks, fs, all);
    SumEqual(ks, n => if n in m then |m[n]| else 0, n => |Entries(fs, all, n)|);
    AttributedAll(fs, all);
  }

  // ---- the views of a consistent store ----

  /** In a consistent store every feedback row of session `sid` has a recipient, and
      that recipient is a participant of `sid`. */
  lemma RecipientInSession(ss: seq<Session>, ps: seq<Participant>, fs: seq<Feedback>, sid: nat, f: Feedback)
    requires Consistent(ss, ps, fs)
    requires f in FeedbackOf(fs, sid)
    ensures Lookup(ps, f.recipientId).Some?
    ensures Lookup(ps, f.recipientId).value in ParticipantsOf(ps, sid)
  {
    var q :| q in ps && q.id == f.recipientId && q.sessionId == f.sessionId;
    var r := Lookup(ps, f.recipientId);
    IncreasingUnique(ps, ParticipantKey, q, r.value);
  }

  /** In a consistent store with distinct names in session `sid`, each participant's
      monitoring counter is the number of the session's rows addressed to them. */
  lemma MonitorCountsRecipients(ss: seq<Session>, ps: seq<Participant>, fs: seq<Feedback>, sid: nat)
    requires Consistent(ss, ps, fs)
    requires var P := ParticipantsOf(ps, sid);
             forall x, y :: x in P && y in P && x.name == y.name ==> x == y
    ensures var P, F := ParticipantsOf(ps, sid), FeedbackOf(fs, sid);
            forall p :: p in P ==> p.name in Monitor(P, F, ps) && Monitor(P, F, ps)[p.name].submitted == |RowsFor(F, p.id)|
  {
    var P, F := ParticipantsOf(ps, sid), FeedbackOf(fs, sid);
    forall f | f in F ensures Lookup(ps, f.recipientId).Some? && Lookup(ps, f.recipientId).value in P {
      RecipientInSession(ss, ps, fs, sid, f);
    }
    forall x, y | x in P && y in P && x.id == y.id ensures x == y {
      IncreasingUnique(ps, ParticipantKey, x, y);
    }
    forall p | p in P ensures Submitted(F, ps, p.name) == |RowsFor(F, p.id)| {
      SubmittedByDistinctName(F, ps, P, p);
    }
  }

  /** In a consistent store the monitoring counters of session `sid`, summed over
      its participant names (each enumerated once), equal its number of feedback rows. */
  lemma MonitorTotal(ss: seq<Session>, ps: seq<Participant>, fs: seq<Feedback>, sid: nat, ks: seq<string>)
    requires Consistent(ss, ps, fs)
    requires NoDuplicates(ks) && forall n :: n in ks <==> n in Names(ParticipantsOf(ps, sid))
    ensures var P, F := ParticipantsOf(ps, sid), FeedbackOf(fs, sid);
            var m := Monitor(P, F, ps);
            Sum(ks, n => if n in m then m[n].submitted else 0) == |F|
  {
    var P, F := ParticipantsOf(ps, sid), FeedbackOf(fs, sid);
    forall f | f in F ensures Lookup(ps, f.recipientId).Some? && Lookup(ps, f.recipientId).value.name in Names(P) {
      RecipientInSession(ss, ps, fs, sid, f);
    }
    MonitorSum(P, F, ps, ks);
    AttributedAll(F, ps);
  }

  // ---- the loops of the two handlers ----

  /** The counting loop of `monitor_feedback`: start every name of `ps` at zero
      with total `|ps| - 1`, then bump the counter of each row's recipient name.
      A recipient whose name has no counter would make the monitoring page fail, so the
      caller must rule that out. */
  method CountSubmissions(ps: seq<Participant>, fs: seq<Feedback>, all: seq<Participant>) returns (m: map<string, Counts>)
    requires forall f :: f in fs && Lookup(all, f.recipientId).Some? ==> Lookup(all, f.recipientId).value.name in Names(ps)
    ensures m == Monitor(ps, fs, all)
    ensures m.Keys == Names(ps)
    ensures forall n :: n in m ==> m[n].total == |ps| - 1
  {
    m := map n | n in Names(ps) :: Counts(0, |ps| - 1);
    var i := 0;
    while i < |fs|
      invariant 0 <= i <= |fs|
      invariant m == Tally(Names(ps), |ps| - 1, fs[..i], all)
    {
      var recipient := Lookup(all, fs[i].recipientId);
      TallySnoc(Names(ps), |ps| - 1, fs[..i], fs[i], all);
      assert fs[..i + 1] == fs[..i] + [fs[i]];
      if recipient.Some? {
        var n := recipient.value.name;
        m := m[n := Counts(m[n].submitted + 1, m[n].total)];
      }
      i := i + 1;
    }
    assert fs[..|fs|] == fs;
  }

  /** The grouping loop of `review_feedback`: append each row's answers to the list
      of its recipient's name, creating the list on first use. A row whose
      recipient does not exist would make the review page fail, so the caller must rule
      that out. */
  method GroupByRecipient(fs: seq<Feedback>, all: seq<Participant>) returns (m: map<string, seq<Entry>>)
    requires forall f :: f in fs ==> Lookup(all, f.recipientId).Some?
    ensures m == Review(fs, all)
  {
    m := map[];
    var i := 0;
    while i < |fs|
      invariant 0 <= i <= |fs|
      invariant m == Review(fs[..i], all)
    {
      var participant := Lookup(all, fs[i].recipientId).value;
      ReviewSnoc(fs[..i], fs[i], all);
      assert fs[..i + 1] == fs[..i] + [fs[i]];
      if participant.name !in m {
        m := m[participant.name := []];
      }
      m := m[participant.name := m[participant.name]
               + [Entry(fs[i].question1, fs[i].question2, participant.id)]];
      i := i + 1;
    }
    assert fs[..|fs|] == fs;
  }
}
