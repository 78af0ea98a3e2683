/** What the credential directory guarantees over any number of enrolments and sign-outs. */
module CredentialsLaws {
  import opened Credentials
  import opened Files
  import opened Wrappers

  datatype Op = Enrol(o: Fate) | SignOut(r: Removals)

  function AfterOp(d: Dir, next: nat, op: Op): Dir {
    match op
    case Enrol(o) => AfterEnroll(d, o, next)
    case SignOut(r) => AfterClear(d, r)
  }

  function NextKey(next: nat, op: Op): nat { if op.Enrol? && !op.o.urlBlank then next + 1 else next }

  /** No enrolment found a certificate it could not remove and yet wrote its new key. */
  predicate NeverStale(d: Dir, next: nat, ops: seq<Op>)
    decreases |ops|
  {
    ops != [] ==>
      && (ops[0].Enrol? ==> !Stale(d, ops[0].o))
      && NeverStale(AfterOp(d, next, ops[0]), NextKey(next, ops[0]), ops[1..])
  }

  /** One operation. */
  method Perform(store: Store, op: Op)
    requires store.Valid()
    modifies store
    ensures store.Valid() && store.dir == AfterOp(old(store.dir), old(store.next), op)
    ensures store.next == NextKey(old(store.next), op) && old(store.passed) <= store.passed
    ensures Matching(old(store.dir)) ==>
      (store.MatchedSince(|old(store.passed)|) <==> !(op.Enrol? && Stale(old(store.dir), op.o)))
    ensures Matching(old(store.dir)) && !(op.Enrol? && Stale(old(store.dir), op.o)) ==> Matching(store.dir)
  {
    match op
    case Enrol(o) => var r := store.Enroll(o);
    case SignOut(r) => store.Clear(r);
  }

  lemma Extended(store: Store, before: seq<Dir>, from: nat)
    requires before <= store.passed && from <= |before|
    ensures store.MatchedSince(from) <==>
      (forall k | from <= k < |before| :: Matching(before[k])) && store.MatchedSince(|before|)
  {
    assert forall k | from <= k < |before| :: store.passed[k] == before[k];
  }

  /** Any sequence of enrolments, succeeding or failing anywhere, and sign-outs: key and certificate match at
      every step of the way exactly when no enrolment was left with a certificate it could not remove. */
  method Session(store: Store, ops: seq<Op>)
    requires store.Valid() && Matching(store.dir)
    modifies store
    ensures old(store.passed) <= store.passed
    ensures store.MatchedSince(|old(store.passed)|) <==> NeverStale(old(store.dir), old(store.next), ops)
  {
    ghost var from := |store.passed|;
    ghost var fine := true;
    for i := 0 to |ops|
      invariant store.Valid() && old(store.passed) <= store.passed && (fine <==> store.MatchedSince(from))
      invariant fine ==> Matching(store.dir)
      invariant NeverStale(old(store.dir), old(store.next), ops) <==>
        fine && NeverStale(store.dir, store.next, ops[i..])
    {
      assert ops[i..][0] == ops[i] && ops[i..][1..] == ops[i + 1..];
      ghost var before := store.passed;
      fine := fine && !(ops[i].Enrol? && Stale(store.dir, ops[i].o));
      Perform(store, ops[i]);
      Extended(store, before, from);
    }
  }

  predicate WritesCertificate(op: Op) {
    op.Enrol? && Generates(op.o) && op.o.reply.Signed? && op.o.certWrite.Done?
  }

  lemma NewCertificateRepairs(d: Dir, o: Fate, key: nat)
    requires WritesCertificate(Enrol(o))
    ensures Usable(AfterEnroll(d, o, key))
  {
  }

  /** From any directory at all, mismatched ones included: the first enrolment that writes its certificate leaves a
      usable pair, and from then on the pair matches at every step exactly as from a matching start. */
  method SessionAfterRepair(store: Store, op: Op, ops: seq<Op>) returns (ghost from: nat)
    requires store.Valid() && WritesCertificate(op)
    modifies store
    ensures |old(store.passed)| <= from <= |store.passed| && old(store.passed) <= store.passed
    ensures Usable(AfterOp(old(store.dir), old(store.next), op))
    ensures store.MatchedSince(from) <==>
      NeverStale(AfterOp(old(store.dir), old(store.next), op), NextKey(old(store.next), op), ops)
  {
    NewCertificateRepairs(store.dir, op.o, store.next);
    Perform(store, op);
    from := |store.passed|;
    Session(store, ops);
  }

  // ---- One enrolment, as a whole ----

  /** After success the directory has a key, a certificate for it and a record; the record's serial is the
      certificate's exactly when the service stated it. */
  lemma SuccessIsComplete(d: Dir, o: Fate, key: nat)
    requires Succeeds(o)
    ensures var e := AfterEnroll(d, o, key);
      && e.key == Whole(key) && e.public == Whole(key) && e.cert == Whole(Cert(key, o.reply.serial))
      && e.hosts == (if o.reply.hostKey == "" then d.hosts else Whole(o.reply.hostKey))
      && e.record == Whole(Told(o.reply))
      && (e.record.value == e.cert.value.serial <==>
            o.reply.told == Some(o.reply.serial) || (o.reply.told == None && o.reply.serial == 0))
  {
  }

  // ---- Each file, and exactly when it changes ----

  /** The write was begun and came to this: the whole value, or part of it. */
  ghost predicate Wrote<T>(f: File<T>, value: T, w: Write) {
    (w.Done? ==> f == Whole(value)) && (w.Interrupted? ==> f == CutShort)
  }

  /** The private key is touched by every enrolment with an address and a directory: written, or if it could not be
      opened, gone or left, as its removal went. */
  lemma KeyFile(d: Dir, o: Fate, key: nat)
    ensures var f := AfterEnroll(d, o, key).key;
      && (o.urlBlank || !o.prepared ==> f == d.key)
      && (!o.urlBlank && o.prepared ==>
            && (!o.keyWrite.NotOpened? ==> Wrote(f, key, o.keyWrite))
            && (o.keyWrite.NotOpened? ==> f == if o.keyRemoved then Absent else d.key))
  {
  }

  /** The public key is written if and only if the private one was. */
  lemma PublicFile(d: Dir, o: Fate, key: nat)
    ensures var f := AfterEnroll(d, o, key).public;
      if !o.urlBlank && o.prepared && o.keyWrite == Done && !o.publicWrite.NotOpened?
      then Wrote(f, key, o.publicWrite) else f == d.public
  {
  }

  /** The service is asked, and has signed. */
  predicate Signs(o: Fate) {
    && !o.urlBlank && o.prepared && o.keyWrite == Done && o.publicWrite == Done && o.restricted
    && o.reply.Signed?
  }

  /** The certificate is written if and only if the service signed; the old one is gone before that if it could be
      removed. */
  lemma CertificateFile(d: Dir, o: Fate, key: nat)
    ensures var f := AfterEnroll(d, o, key).cert;
      && (Signs(o) && !o.certWrite.NotOpened? ==> Wrote(f, Cert(key, o.reply.serial), o.certWrite))
      && (!Signs(o) || o.certWrite.NotOpened? ==>
            f == if !o.urlBlank && o.prepared && o.certRemoved then Absent else d.cert)
  {
  }

  /** The host key is pinned if and only if the certificate was written and the service gave one. */
  lemma HostsFile(d: Dir, o: Fate, key: nat)
    ensures var f := AfterEnroll(d, o, key).hosts;
      if Signs(o) && o.certWrite == Done && o.reply.hostKey != "" && !o.hostsWrite.NotOpened?
      then Wrote(f, o.reply.hostKey, o.hostsWrite) else f == d.hosts
  {
  }

  /** The record is written if and only if all of that was, with the serial the service stated, or 0. */
  lemma RecordFile(d: Dir, o: Fate, key: nat)
    ensures var f := AfterEnroll(d, o, key).record;
      if Signs(o) && o.certWrite == Done && (o.reply.hostKey == "" || o.hostsWrite == Done) && !o.recordWrite.NotOpened?
      then Wrote(f, (match o.reply.told case None => 0 case Some(n) => n), o.recordWrite) else f == d.record
  {
  }

  /** An enrolment succeeds if and only if everything does. */
  lemma SucceedsIff(o: Fate)
    ensures Succeeds(o) <==>
      Signs(o) && o.certWrite == Done && (o.reply.hostKey != "" ==> o.hostsWrite == Done) && o.recordWrite == Done
  {
  }

  /** A sign-out removes each file if and only if its own removal succeeds. */
  lemma SignedOut(d: Dir, r: Removals)
    ensures var e := AfterClear(d, r);
      && (if r.key then e.key == Absent else e.key == d.key)
      && (if r.public then e.public == Absent else e.public == d.public)
      && (if r.cert then e.cert == Absent else e.cert == d.cert)
      && (if r.hosts then e.hosts == Absent else e.hosts == d.hosts)
      && (if r.record then e.record == Absent else e.record == d.record)
  {
  }

  /** A failed enrolment leaves the old pair usable exactly when it stopped before touching the files, or could
      neither remove nor open either of them. In every other case the old certificate is lost before the
      service has answered. */
  lemma FailureKeepsTheOldPairIff(d: Dir, o: Fate, key: nat)
    requires Usable(d) && Older(d, key) && !Succeeds(o)
    ensures var e := AfterEnroll(d, o, key);
      (e.key == d.key && e.cert == d.cert) <==>
        !Starts(o) || (!o.keyRemoved && !o.certRemoved && o.keyWrite.NotOpened?)
  {
  }

  /** The mismatch, on a concrete directory: a valid pair, a certificate file that cannot be removed, and a
      service that refuses. */
  lemma StaleExample()
    ensures var d := Dir(Whole(1), Whole(1), Whole(Cert(1, 7)), Absent, Whole(7));
      var o := Fate(false, true, true, false, Done, Done, true, Refused, NotOpened, NotOpened, NotOpened);
      Usable(d) && !Matching(AfterEnroll(d, o, 2))
  {
  }
}
