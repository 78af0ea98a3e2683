/** The credential directory that `src-tauri/src/enroll.rs` keeps: private key, public key, certificate, pinned
    host key and enrolment record, each a file that may be missing or cut short. */
module Credentials {
  import opened Files
  import opened Wrappers

  datatype File<+T> = Absent | Whole(value: T) | CutShort

  /** A key is known by a number; every enrolment makes a new one. */
  datatype Cert = Cert(key: nat, serial: nat)

  datatype Dir = Dir(key: File<nat>, public: File<nat>, cert: File<Cert>, hosts: File<string>, record: File<nat>)

  /** What the service answers. A certificate is for the key that was sent; `told` is the serial stated beside it. */
  datatype Reply = Unreachable | Refused | NotACertificate | Signed(serial: nat, told: Option<nat>, hostKey: string)

  /** Everything about one enrolment that its code does not decide. Removals may fail unnoticed. */
  datatype Fate = Fate(
    urlBlank: bool, prepared: bool, keyRemoved: bool, certRemoved: bool, keyWrite: Write, publicWrite: Write,
    restricted: bool, reply: Reply, certWrite: Write, hostsWrite: Write, recordWrite: Write)

  /** Which of the five removals of a sign-out succeed. */
  datatype Removals = Removals(key: bool, cert: bool, hosts: bool, public: bool, record: bool)

  function Removed<T>(f: File<T>, ok: bool): File<T> { if ok then Absent else f }

  function Written<T>(f: File<T>, value: T, w: Write): File<T> {
    match w
    case Done => Whole(value)
    case NotOpened => f
    case Interrupted(_) => CutShort
  }

  // ---- What one enrolment leaves behind ----

  predicate Starts(o: Fate) { !o.urlBlank && o.prepared }

  predicate Generates(o: Fate) { Starts(o) && o.keyWrite.Done? && o.publicWrite.Done? && o.restricted }

  predicate Succeeds(o: Fate) {
    && Generates(o) && o.reply.Signed? && o.certWrite.Done?
    && (o.reply.hostKey == "" || o.hostsWrite.Done?) && o.recordWrite.Done?
  }

  function AfterKey(d: Dir, o: Fate, key: nat): Dir {
    if !Starts(o) then d
    else d.(
      key := Written(Removed(d.key, o.keyRemoved), key, o.keyWrite),
      cert := Removed(d.cert, o.certRemoved),
      public := if o.keyWrite.Done? then Written(d.public, key, o.publicWrite) else d.public)
  }

  function AfterReply(d: Dir, o: Fate, key: nat): Dir {
    if !Generates(o) || !o.reply.Signed? then d
    else
      var pinned := o.certWrite.Done? && (o.reply.hostKey == "" || o.hostsWrite.Done?);
      d.(
        cert := Written(d.cert, Cert(key, o.reply.serial), o.certWrite),
        hosts := if o.certWrite.Done? && o.reply.hostKey != "" then Written(d.hosts, o.reply.hostKey, o.hostsWrite) else d.hosts,
        record := if pinned then Written(d.record, Told(o.reply), o.recordWrite) else d.record)
  }

  function Told(r: Reply): nat
    requires r.Signed?
  {
    if r.told.Some? then r.told.value else 0
  }

  function AfterEnroll(d: Dir, o: Fate, key: nat): Dir { AfterReply(AfterKey(d, o, key), o, key) }

  function AfterClear(d: Dir, r: Removals): Dir {
    Dir(Removed(d.key, r.key), Removed(d.public, r.public), Removed(d.cert, r.cert), Removed(d.hosts, r.hosts),
        Removed(d.record, r.record))
  }

  /** If there are a key and a certificate, the certificate is for that key. */
  predicate Matching(d: Dir) { d.key.Whole? && d.cert.Whole? ==> d.cert.value.key == d.key.value }

  /** The directory has a key with its certificate. */
  predicate Usable(d: Dir) { d.key.Whole? && d.cert.Whole? && d.cert.value.key == d.key.value }

  /** A certificate that could not be removed while the new key could be written. */
  predicate Stale(d: Dir, o: Fate) { Starts(o) && d.cert.Whole? && !o.certRemoved && o.keyWrite.Done? }

  /** Keys not yet made are nowhere in the directory. */
  predicate Older(d: Dir, next: nat) {
    (d.key.Whole? ==> d.key.value < next) && (d.cert.Whole? ==> d.cert.value.key < next)
  }

  /** Nothing is written before what it rests on: the public key after the private one; the certificate after both;
      the pin and the record after the certificate, and the record after the pin. */
  predicate InOrder(before: Dir, d: Dir, o: Fate, key: nat) {
    && (d.public != before.public ==> d.key == Whole(key))
    && (d.cert.Whole? && d.cert != before.cert ==> d.key == Whole(key) && d.public == Whole(key) && d.cert.value.key == key)
    && (d.hosts != before.hosts ==> d.cert.Whole? && d.cert.value.key == key)
    && (d.record != before.record ==>
          && d.cert.Whole? && d.cert.value.key == key && o.reply.Signed?
          && (o.reply.hostKey != "" ==> d.hosts == Whole(o.reply.hostKey)))
  }

  class Store {
    var dir: Dir
    var next: nat
    /** Every state the directory has been in since. */
    ghost var passed: seq<Dir>

    ghost predicate Valid()
      reads this
    {
      Older(dir, next)
    }

    /** Every state passed through since `from` matched. */
    ghost predicate MatchedSince(from: nat)
      reads this
    {
      from <= |passed| && forall k | from <= k < |passed| :: Matching(passed[k])
    }

    /** Every state passed through since `from` was in order. */
    ghost predicate OrderedSince(from: nat, before: Dir, o: Fate, key: nat)
      reads this
    {
      from <= |passed| && forall k | from <= k < |passed| :: InOrder(before, passed[k], o, key)
    }

    constructor (dir: Dir, next: nat)
      requires Older(dir, next)
      ensures Valid() && this.dir == dir && this.next == next && passed == []
    {
      this.dir, this.next, passed := dir, next, [];
    }

    method Put(d: Dir)
      modifies this`dir, this`passed
      ensures dir == d && passed == old(passed) + [d]
    {
      dir := d;
      passed := passed + [d];
    }

    /** `generate_key`, one file operation at a time. */
    method GenerateKey(o: Fate) returns (ok: bool, key: nat)
      requires Valid() && !o.urlBlank
      modifies this
      ensures Valid() && key == old(next) && next == key + 1 && ok == Generates(o) && dir == AfterKey(old(dir), o, key)
      ensures old(passed) <= passed
      ensures Matching(old(dir)) ==> (MatchedSince(|old(passed)|) <==> !Stale(old(dir), o))
      ensures Matching(old(dir)) ==> (Matching(dir) <==> !Stale(old(dir), o))
      ensures ok ==> dir.key == Whole(key) && dir.public == Whole(key)
      ensures dir.hosts == old(dir.hosts) && dir.record == old(dir.record) && (dir.cert.Whole? ==> dir.cert == old(dir.cert))
      ensures OrderedSince(|old(passed)|, old(dir), o, key)
    {
      key := next;
      next := next + 1;
      if !o.prepared { return false, key; }
      Put(dir.(key := Removed(dir.key, o.keyRemoved)));
      Put(dir.(cert := Removed(dir.cert, o.certRemoved)));
      Put(dir.(key := Written(dir.key, key, o.keyWrite)));
      assert passed[|old(passed)| + 2] == dir && (Matching(old(dir)) ==> (Matching(dir) <==> !Stale(old(dir), o)));
      if !o.keyWrite.Done? { return false, key; }
      Put(dir.(public := Written(dir.public, key, o.publicWrite)));
      assert passed[|old(passed)| + 2].key == dir.key && passed[|old(passed)| + 2].cert == dir.cert;
      assert |passed| == |old(passed)| + 4 && passed[|old(passed)| + 3] == dir;
      ok := o.publicWrite.Done? && o.restricted;
    }

    /** The answer and what is written of it. Returns the record's serial. */
    method StoreReply(o: Fate, key: nat, ghost before: Dir) returns (r: Option<nat>)
      requires Valid() && Generates(o) && dir.key == Whole(key) && dir.public == Whole(key) && key < next
      requires dir.hosts == before.hosts && dir.record == before.record && (dir.cert.Whole? ==> dir.cert == before.cert)
      modifies this
      ensures Valid() && dir == AfterReply(old(dir), o, key) && next == old(next)
      ensures r == if Succeeds(o) then Some(Told(o.reply)) else None
      ensures old(passed) <= passed
      ensures OrderedSince(|old(passed)|, before, o, key)
      ensures Matching(old(dir)) || (o.reply.Signed? && !o.certWrite.NotOpened?) ==> MatchedSince(|old(passed)|)
      ensures Matching(old(dir)) || (o.reply.Signed? && !o.certWrite.NotOpened?) ==> Matching(dir)
    {
      match o.reply
      case Unreachable => r := None;
      case Refused => r := None;
      case NotACertificate => r := None;
      case Signed(serial, told, hostKey) =>
        Put(dir.(cert := Written(dir.cert, Cert(key, serial), o.certWrite)));
        if !o.certWrite.Done? { return None; }
        if hostKey != "" {
          Put(dir.(hosts := Written(dir.hosts, hostKey, o.hostsWrite)));
          if !o.hostsWrite.Done? { return None; }
        }
        Put(dir.(record := Written(dir.record, Told(o.reply), o.recordWrite)));
        r := if o.recordWrite.Done? then Some(Told(o.reply)) else None;
    }

    /** `enroll`. */
    method Enroll(o: Fate) returns (r: Option<nat>)
      requires Valid()
      modifies this
      ensures Valid() && dir == AfterEnroll(old(dir), o, old(next))
      ensures r == if Succeeds(o) then Some(Told(o.reply)) else None
      ensures old(passed) <= passed
      ensures Matching(old(dir)) ==> (MatchedSince(|old(passed)|) <==> !Stale(old(dir), o))
      ensures Matching(old(dir)) && !Stale(old(dir), o) ==> Matching(dir)
      ensures next == old(next) + if o.urlBlank then 0 else 1
      ensures OrderedSince(|old(passed)|, old(dir), o, old(next))
    {
      if o.urlBlank { return None; }
      var ok, key := GenerateKey(o);
      if !ok { return None; }
      ghost var middle := passed;
      r := StoreReply(o, key, old(dir));
      assert forall k | |old(passed)| <= k < |middle| :: passed[k] == middle[k];
    }

    /** `clear`: the five removals, in order. */
    method Clear(r: Removals)
      requires Valid()
      modifies this
      ensures Valid() && dir == AfterClear(old(dir), r) && next == old(next)
      ensures old(passed) <= passed && (Matching(old(dir)) ==> MatchedSince(|old(passed)|) && Matching(dir))
      ensures r == Removals(true, true, true, true, true) ==> dir == Dir(Absent, Absent, Absent, Absent, Absent)
      ensures r.key ==> forall k | |old(passed)| <= k < |passed| :: passed[k].key == Absent
    {
      Put(dir.(key := Removed(dir.key, r.key)));
      Put(dir.(cert := Removed(dir.cert, r.cert)));
      Put(dir.(hosts := Removed(dir.hosts, r.hosts)));
      Put(dir.(public := Removed(dir.public, r.public)));
      Put(dir.(record := Removed(dir.record, r.record)));
    }
  }
}
