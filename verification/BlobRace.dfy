/**
 The blob store with many requests at once: every file operation is one step, and the steps of all writers, deletions
 and reads interleave freely.
 */
module BlobRace {
  import opened Decimal
  import opened BlobNames

  datatype Phase =
    | Copying    // the temporary file has been made and is being filled
    | Published  // renamed over the final name
    | Labelled   // the sidecar has been written
    | Unlabelled // writing the sidecar has failed after its file was opened, and so emptied
    | Returned   // the deferred removal of the temporary name has been done
    | Rejecting  // Put has found a length mismatch and has removed the blob
    | Gone       // nothing more will be done

  /** One writeFrom call: source is all its reader will yield, of which copied bytes are in the file it has open. */
  datatype Writer = Writer(name: string, source: string, temp: string, copied: nat, phase: Phase)

  /** What a directory entry links to: the file a writer has (or had) open, or a text written in one go. */
  datatype Entry = File(writer: nat) | Text(text: string)

  /** present: the directory itself has not been removed. */
  datatype Sys = Sys(files: map<string, Entry>, writers: map<nat, Writer>, present: bool)

  const INITIAL := Sys(map[], map[], true)

  /** The bytes a reader gets who opens an entry now. */
  function Content(s: Sys, e: Entry): string {
    match e
    case Text(text) => text
    case File(w) =>
      if w in s.writers && s.writers[w].copied <= |s.writers[w].source|
      then s.writers[w].source[..s.writers[w].copied]
      else ""
  }

  // ----- steps

  ghost predicate Begin(s: Sys, t: Sys, w: nat, name: string, source: string, digits: string) {
    var temp := TempName(name, digits);
    && s.present && w !in s.writers && ValidName(name)
    && digits != "" && AllDigits(digits) && temp !in s.files
    && t == s.(files := s.files[temp := File(w)], writers := s.writers[w := Writer(name, source, temp, 0, Copying)])
  }

  /** Bytes go to the open file, wherever in the directory it is by now. */
  ghost predicate CopySome(s: Sys, t: Sys, w: nat, n: nat) {
    && w in s.writers && s.writers[w].phase == Copying
    && s.writers[w].copied < n <= |s.writers[w].source|
    && t == s.(writers := s.writers[w := s.writers[w].(copied := n)])
  }

  /** The reader or the rename failed, or the body was too large or too short: the temporary name is removed. */
  ghost predicate Abort(s: Sys, t: Sys, w: nat) {
    && w in s.writers && s.writers[w].phase == Copying
    && t == s.(files := s.files - {s.writers[w].temp}, writers := s.writers[w := s.writers[w].(phase := Gone)])
  }

  /** A rename moves whatever the temporary name links to; onto the directory itself it always fails. */
  ghost predicate Publish(s: Sys, t: Sys, w: nat, maxBytes: int) {
    && w in s.writers && s.writers[w].phase == Copying && s.writers[w].temp in s.files
    && var x := s.writers[w];
    && x.name != DOT && x.copied == |x.source| && |x.source| <= maxBytes
    && t == s.(files := (s.files - {x.temp})[x.name := s.files[x.temp]],
               writers := s.writers[w := x.(phase := Published)])
  }

  ghost predicate WriteSidecar(s: Sys, t: Sys, w: nat, hash: string -> string) {
    && s.present && w in s.writers && s.writers[w].phase == Published
    && var x := s.writers[w];
    && t == s.(files := s.files[HashName(x.name) := Text(hash(x.source) + "\n")],
               writers := s.writers[w := x.(phase := Labelled)])
  }

  /** Opening the sidecar empties it; a write that fails after that leaves only part of the line. */
  ghost predicate TearSidecar(s: Sys, t: Sys, w: nat, k: nat, hash: string -> string) {
    && s.present && w in s.writers && s.writers[w].phase == Published
    && var x := s.writers[w];
    && k <= |hash(x.source)|
    && t == s.(files := s.files[HashName(x.name) := Text((hash(x.source) + "\n")[..k])],
               writers := s.writers[w := x.(phase := Unlabelled)])
  }

  /**
   The deferred removal of the temporary name, which a successful rename has already freed. A writer that gets here
   without a sidecar could not open it.
   */
  ghost predicate CleanUp(s: Sys, t: Sys, w: nat) {
    && w in s.writers && s.writers[w].phase in {Published, Labelled, Unlabelled}
    && t == s.(files := s.files - {s.writers[w].temp}, writers := s.writers[w := s.writers[w].(phase := Returned)])
  }

  ghost predicate RejectBlob(s: Sys, t: Sys, w: nat) {
    && w in s.writers && s.writers[w].phase == Returned
    && t == s.(files := s.files - {s.writers[w].name}, writers := s.writers[w := s.writers[w].(phase := Rejecting)])
  }

  ghost predicate RejectSidecar(s: Sys, t: Sys, w: nat) {
    && w in s.writers && s.writers[w].phase == Rejecting
    && var x := s.writers[w];
    && t == s.(files := s.files - {HashName(x.name)}, writers := s.writers[w := x.(phase := Gone)])
  }

  /** The two removals of a Delete, at any time and in any number. */
  ghost predicate Remove(s: Sys, t: Sys, name: string) {
    && ValidName(name)
    && (t == s.(files := s.files - {name}) || t == s.(files := s.files - {HashName(name)}))
  }

  /** Deleting the name that stands for the directory removes it, once it is empty. */
  ghost predicate RemoveDirectory(s: Sys, t: Sys) {
    s.files == map[] && t == s.(present := false)
  }

  ghost predicate Step(s: Sys, t: Sys, maxBytes: int, hash: string -> string) {
    || t == s
    || (exists w, name, source, digits :: Begin(s, t, w, name, source, digits))
    || (exists w, n :: CopySome(s, t, w, n))
    || (exists w :: Abort(s, t, w))
    || (exists w :: Publish(s, t, w, maxBytes))
    || (exists w :: WriteSidecar(s, t, w, hash))
    || (exists w, k :: TearSidecar(s, t, w, k, hash))
    || (exists w :: CleanUp(s, t, w))
    || (exists w :: RejectBlob(s, t, w))
    || (exists w :: RejectSidecar(s, t, w))
    || (exists name :: Remove(s, t, name))
    || RemoveDirectory(s, t)
  }

  ghost predicate Trace(ss: seq<Sys>, maxBytes: int, hash: string -> string) {
    && ss != [] && ss[0] == INITIAL
    && forall i :: 0 <= i < |ss| - 1 ==> Step(ss[i], ss[i + 1], maxBytes, hash)
  }

  /** The writer may still rename its temporary name to a final one. */
  ghost predicate CouldPublish(x: Writer, maxBytes: int) {
    x.phase == Copying && Final(x.name) && |x.source| <= maxBytes
  }

  /** The writers that have begun in between, with something to copy. */
  function NewWriters(s: Sys, t: Sys): set<nat> {
    set w | w in t.writers && w !in s.writers && t.writers[w].source != ""
  }

  /** No such writer is given the temporary name of another that may still rename it. */
  ghost predicate NoReuse(s: Sys, t: Sys, maxBytes: int) {
    forall v, w :: v in s.writers && CouldPublish(s.writers[v], maxBytes) && w in NewWriters(s, t) ==>
      t.writers[w].temp != s.writers[v].temp
  }

  predicate Publishes(s: Sys, t: Sys, w: nat) {
    w in s.writers && w in t.writers && s.writers[w].phase == Copying && t.writers[w].phase == Published
  }

  /** Nothing is uploaded under the temporary name of a writer that may still rename it. */
  ghost predicate NoTempUpload(s: Sys, t: Sys, maxBytes: int) {
    forall v, w :: v in s.writers && CouldPublish(s.writers[v], maxBytes) && Publishes(s, t, w) ==>
      s.writers[w].name != s.writers[v].temp
  }

  /** Nothing but the writer itself is linked to a temporary name that may still be renamed. */
  ghost predicate TempsApart(s: Sys, t: Sys, maxBytes: int) {
    NoReuse(s, t, maxBytes) && NoTempUpload(s, t, maxBytes)
  }

  /** Steps that keep temporary names apart. */
  ghost predicate Careful(ss: seq<Sys>, maxBytes: int, hash: string -> string) {
    forall i :: 0 <= i < |ss| - 1 ==> Step(ss[i], ss[i + 1], maxBytes, hash) && TempsApart(ss[i], ss[i + 1], maxBytes)
  }

  ghost predicate CarefulTrace(ss: seq<Sys>, maxBytes: int, hash: string -> string) {
    ss != [] && ss[0] == INITIAL && Careful(ss, maxBytes, hash)
  }

  // ----- the invariant

  /** The writer's temporary name was made for its blob. */
  ghost predicate TempOf(x: Writer) {
    exists digits :: digits != "" && AllDigits(digits) && x.temp == TempName(x.name, digits)
  }

  /** The entry is the writer's own file, or that of a writer of the same blob who copies nothing. */
  predicate OwnOrEmpty(s: Sys, w: nat, e: Entry)
    requires w in s.writers
  {
    || e == File(w)
    || (e.File? && e.writer in s.writers && s.writers[e.writer].name == s.writers[w].name
        && s.writers[e.writer].source == "")
  }

  ghost predicate OwnTemp(s: Sys, w: nat, maxBytes: int)
    requires w in s.writers
  {
    var x := s.writers[w];
    && TempOf(x) && x.copied <= |x.source|
    && (CouldPublish(x, maxBytes) && x.temp in s.files ==> OwnOrEmpty(s, w, s.files[x.temp]))
  }

  /** The entry is the file that one writer has filled completely under that name, and small enough. */
  ghost predicate Whole(s: Sys, name: string, e: Entry, maxBytes: int) {
    && e.File? && e.writer in s.writers
    && var x := s.writers[e.writer];
    && x.name == name && x.copied == |x.source| <= maxBytes
  }

  ghost predicate AllWhole(s: Sys, maxBytes: int) {
    forall name :: name in s.files && s.files[name].File? && Final(name) ==> Whole(s, name, s.files[name], maxBytes)
  }

  /** Texts are sidecars. */
  predicate TextsAside(s: Sys) {
    forall f :: f in s.files && s.files[f].Text? ==> IsSidecar(f)
  }

  /** Every file is linked at its writer's temporary name, or has been moved to names no longer than its blob's. */
  ghost predicate LinkedDown(s: Sys) {
    forall f :: f in s.files && s.files[f].File? ==>
      && s.files[f].writer in s.writers
      && var x := s.writers[s.files[f].writer];
      && (x.temp == f || |f| <= |x.name|)
  }

  ghost predicate Inv(s: Sys, maxBytes: int) {
    (forall w :: w in s.writers ==> OwnTemp(s, w, maxBytes)) && AllWhole(s, maxBytes) && LinkedDown(s)
    && TextsAside(s)
  }

  /** Writers go on: none changes its names or source, uncopies anything, or starts over. */
  ghost predicate Onward(s: Sys, t: Sys) {
    forall w :: w in s.writers ==>
      && w in t.writers && t.writers[w].name == s.writers[w].name && t.writers[w].source == s.writers[w].source
      && t.writers[w].temp == s.writers[w].temp && (t.writers[w].phase == Copying ==> s.writers[w].phase == Copying)
      && (s.writers[w].copied <= |s.writers[w].source| ==>
            s.writers[w].copied <= t.writers[w].copied <= |s.writers[w].source|)
  }

  /** No file is linked anew; a text may be, as a sidecar. */
  ghost predicate NoNewLinks(s: Sys, t: Sys) {
    forall f :: f in t.files ==>
      (f in s.files && t.files[f] == s.files[f]) || (t.files[f].Text? && IsSidecar(f) && !TempShaped(f))
  }

  lemma OwnKept(s: Sys, t: Sys, w: nat, maxBytes: int)
    requires w in s.writers && OwnTemp(s, w, maxBytes) && Onward(s, t)
    requires CouldPublish(t.writers[w], maxBytes) && s.writers[w].temp in t.files ==>
               s.writers[w].temp in s.files && t.files[s.writers[w].temp] == s.files[s.writers[w].temp]
    ensures OwnTemp(t, w, maxBytes)
  {
    hide Plain, TempName;
  }

  /** A step that begins no writer and links no file anew keeps the invariant. */
  lemma QuietInv(s: Sys, t: Sys, maxBytes: int)
    requires Inv(s, maxBytes) && Onward(s, t) && NoNewLinks(s, t) && t.writers.Keys == s.writers.Keys
    ensures Inv(t, maxBytes)
  {
    hide Plain, TempName, CouldPublish;
    forall w | w in t.writers
      ensures OwnTemp(t, w, maxBytes)
    {
      assert OwnTemp(s, w, maxBytes) && TempShaped(s.writers[w].temp);
      OwnKept(s, t, w, maxBytes);
    }
    hide OwnTemp;
    forall name | name in t.files && t.files[name].File? && Final(name)
      ensures Whole(t, name, t.files[name], maxBytes)
    {
      assert Whole(s, name, s.files[name], maxBytes);
    }
  }

  lemma TempIsTemporary(name: string, digits: string)
    requires digits != "" && AllDigits(digits)
    ensures TempShaped(TempName(name, digits)) && !IsSidecar(TempName(name, digits)) && !Final(TempName(name, digits))
  {
    TempIsNoSidecar(name, digits);
  }

  /** A new writer that gets another's temporary name writes the same blob. */
  lemma SameTempSameName(x: Writer, name: string, digits: string)
    requires TempOf(x) && AllDigits(digits) && x.temp == TempName(name, digits)
    ensures x.name == name
  {
    var d :| d != "" && AllDigits(d) && x.temp == TempName(x.name, d);
    TempNameInjective(x.name, d, name, digits);
  }

  lemma BeginOwns(s: Sys, t: Sys, w: nat, name: string, source: string, digits: string, v: nat, maxBytes: int)
    requires Begin(s, t, w, name, source, digits) && NoReuse(s, t, maxBytes)
    requires v in s.writers && OwnTemp(s, v, maxBytes)
    ensures OwnTemp(t, v, maxBytes)
  {
    hide Plain, TempName, TempOf, ValidName;
    assert t.writers[v] == s.writers[v];
    if s.writers[v].temp == TempName(name, digits) {
      SameTempSameName(s.writers[v], name, digits);
    }
  }

  lemma BeginInv(s: Sys, t: Sys, w: nat, name: string, source: string, digits: string, maxBytes: int)
    requires Inv(s, maxBytes) && Begin(s, t, w, name, source, digits) && NoReuse(s, t, maxBytes)
    ensures Inv(t, maxBytes)
  {
    hide TempName, ValidName, Final, Whole, NoReuse, IsSidecar;
    TempIsTemporary(name, digits);
    assert OwnTemp(t, w, maxBytes);
    forall v | v in s.writers
      ensures OwnTemp(t, v, maxBytes)
    {
      BeginOwns(s, t, w, name, source, digits, v, maxBytes);
    }
    hide OwnTemp;
    BeginWhole(s, t, w, name, source, digits, maxBytes);
  }

  lemma BeginWhole(s: Sys, t: Sys, w: nat, name: string, source: string, digits: string, maxBytes: int)
    requires AllWhole(s, maxBytes) && LinkedDown(s) && TextsAside(s)
    requires Begin(s, t, w, name, source, digits) && !Final(TempName(name, digits))
    ensures AllWhole(t, maxBytes) && LinkedDown(t) && TextsAside(t)
  {
    hide TempName, ValidName, Final, IsSidecar;
    forall f | f in t.files && t.files[f].File? && Final(f)
      ensures Whole(t, f, t.files[f], maxBytes)
    {
      assert Whole(s, f, s.files[f], maxBytes);
    }
  }

  lemma TempIsLonger(x: Writer)
    requires TempOf(x)
    ensures |x.temp| > |x.name| && TempShaped(x.temp) && !Final(x.temp) && !IsSidecar(x.temp)
  {
    var d :| d != "" && AllDigits(d) && x.temp == TempName(x.name, d);
    TempIsTemporary(x.name, d);
  }

  lemma PublishInv(s: Sys, t: Sys, w: nat, maxBytes: int)
    requires Inv(s, maxBytes) && Publish(s, t, w, maxBytes) && NoTempUpload(s, t, maxBytes)
    ensures Inv(t, maxBytes)
  {
    assert Publishes(s, t, w);
    forall v | v in t.writers
      ensures OwnTemp(t, v, maxBytes)
    {
      PublishOwns(s, t, w, v, maxBytes);
    }
    PublishWhole(s, t, w, maxBytes);
    PublishLinks(s, t, w, maxBytes);
  }

  lemma PublishOwns(s: Sys, t: Sys, w: nat, v: nat, maxBytes: int)
    requires Publish(s, t, w, maxBytes) && NoTempUpload(s, t, maxBytes) && Publishes(s, t, w)
    requires v in s.writers && OwnTemp(s, v, maxBytes)
    ensures OwnTemp(t, v, maxBytes)
  {
    hide TempOf, Final, OwnOrEmpty;
    assert CouldPublish(t.writers[v], maxBytes) ==> CouldPublish(s.writers[v], maxBytes);
    OwnKept(s, t, v, maxBytes);
  }

  lemma PublishWhole(s: Sys, t: Sys, w: nat, maxBytes: int)
    requires Inv(s, maxBytes) && Publish(s, t, w, maxBytes)
    ensures AllWhole(t, maxBytes)
  {
    hide Final, TempOf;
    var x := s.writers[w];
    assert OwnTemp(s, w, maxBytes);
    var e := s.files[x.temp];
    assert e.File? ==> e.writer in s.writers && OwnTemp(s, e.writer, maxBytes);
    hide OwnTemp;
    forall name | name in t.files && t.files[name].File? && Final(name)
      ensures Whole(t, name, t.files[name], maxBytes)
    {
      if name != x.name {
        assert Whole(s, name, s.files[name], maxBytes);
      }
    }
  }

  lemma PublishLinks(s: Sys, t: Sys, w: nat, maxBytes: int)
    requires Inv(s, maxBytes) && Publish(s, t, w, maxBytes)
    ensures LinkedDown(t) && TextsAside(t) && s.files[s.writers[w].temp].File?
  {
    var x := s.writers[w];
    var e := s.files[x.temp];
    assert OwnTemp(s, w, maxBytes);
    TempIsLonger(x);
    if e.File? && s.writers[e.writer].temp == x.temp {
      assert OwnTemp(s, e.writer, maxBytes);
      SameTemps(s.writers[e.writer], x);
    }
    assert e.File?;
    hide Inv, OwnTemp, TempOf, Final, IsSidecar;
    assert LinkedDown(s) ==> LinkedDown(t);
  }

  lemma SameTemps(x: Writer, y: Writer)
    requires TempOf(x) && TempOf(y) && x.temp == y.temp
    ensures x.name == y.name
  {
    var d :| d != "" && AllDigits(d) && y.temp == TempName(y.name, d);
    SameTempSameName(x, y.name, d);
  }

  /** No name is linked anew. */
  ghost predicate OnlyRemoves(s: Sys, t: Sys) {
    forall f :: f in t.files ==> f in s.files && t.files[f] == s.files[f]
  }

  /** All steps but beginnings, publications and sidecars. */
  ghost predicate QuietStep(s: Sys, t: Sys) {
    || t == s
    || (exists w, n :: CopySome(s, t, w, n))
    || (exists w :: Abort(s, t, w) || CleanUp(s, t, w))
    || (exists w :: RejectBlob(s, t, w) || RejectSidecar(s, t, w))
    || (exists name :: Remove(s, t, name))
    || RemoveDirectory(s, t)
  }

  lemma QuietStepIsQuiet(s: Sys, t: Sys)
    requires QuietStep(s, t)
    ensures Onward(s, t) && OnlyRemoves(s, t) && t.writers.Keys == s.writers.Keys
  {
    hide Plain, HashName, ValidName, Onward, OnlyRemoves, CopySome, Abort, CleanUp, RejectBlob, RejectSidecar;
    if w, n :| CopySome(s, t, w, n) {
      CopyIsQuiet(s, t, w, n);
    } else if w :| Abort(s, t, w) || CleanUp(s, t, w) {
      TempRemovalIsQuiet(s, t, w);
    } else if w :| RejectBlob(s, t, w) || RejectSidecar(s, t, w) {
      RejectionIsQuiet(s, t, w);
    } else {
      RemovalIsQuiet(s, t);
    }
  }

  lemma CopyIsQuiet(s: Sys, t: Sys, w: nat, n: nat)
    requires CopySome(s, t, w, n)
    ensures Onward(s, t) && OnlyRemoves(s, t) && t.writers.Keys == s.writers.Keys
  {
  }

  lemma TempRemovalIsQuiet(s: Sys, t: Sys, w: nat)
    requires Abort(s, t, w) || CleanUp(s, t, w)
    ensures Onward(s, t) && OnlyRemoves(s, t) && t.writers.Keys == s.writers.Keys
  {
  }

  lemma RejectionIsQuiet(s: Sys, t: Sys, w: nat)
    requires RejectBlob(s, t, w) || RejectSidecar(s, t, w)
    ensures Onward(s, t) && OnlyRemoves(s, t) && t.writers.Keys == s.writers.Keys
  {
    hide HashName;
  }

  lemma RemovalIsQuiet(s: Sys, t: Sys)
    requires t == s || (exists name :: Remove(s, t, name)) || RemoveDirectory(s, t)
    ensures Onward(s, t) && OnlyRemoves(s, t) && t.writers.Keys == s.writers.Keys
  {
    hide Plain, HashName, ValidName;
  }

  lemma SidecarIsQuiet(s: Sys, t: Sys, w: nat, hash: string -> string)
    requires WriteSidecar(s, t, w, hash)
    ensures Onward(s, t) && NoNewLinks(s, t) && t.writers.Keys == s.writers.Keys
  {
    HashNameIsPlainOfNone(s.writers[w].name);
    hide Plain, IsSidecar, TempShaped, HashName;
  }

  lemma TornIsQuiet(s: Sys, t: Sys, w: nat, k: nat, hash: string -> string)
    requires TearSidecar(s, t, w, k, hash)
    ensures Onward(s, t) && NoNewLinks(s, t) && t.writers.Keys == s.writers.Keys
  {
    HashNameIsPlainOfNone(s.writers[w].name);
    hide Plain, IsSidecar, TempShaped, HashName;
  }

  lemma StepInv(s: Sys, t: Sys, maxBytes: int, hash: string -> string)
    requires Inv(s, maxBytes) && Step(s, t, maxBytes, hash) && TempsApart(s, t, maxBytes)
    ensures Inv(t, maxBytes)
  {
    hide Inv, NoReuse, NoTempUpload, Begin, CopySome, Abort, Publish, WriteSidecar, TearSidecar, CleanUp, RejectBlob;
    hide RejectSidecar, Remove, RemoveDirectory, Onward, Plain, TempShaped, IsSidecar;
    if w, name, source, digits :| Begin(s, t, w, name, source, digits) {
      BeginInv(s, t, w, name, source, digits, maxBytes);
    } else if w :| Publish(s, t, w, maxBytes) {
      PublishInv(s, t, w, maxBytes);
    } else if w :| WriteSidecar(s, t, w, hash) {
      SidecarIsQuiet(s, t, w, hash);
      QuietInv(s, t, maxBytes);
    } else if w: nat, k: nat :| TearSidecar(s, t, w, k, hash) {
      TornIsQuiet(s, t, w, k, hash);
      QuietInv(s, t, maxBytes);
    } else {
      QuietStepIsQuiet(s, t);
      assert NoNewLinks(s, t);
      QuietInv(s, t, maxBytes);
    }
  }

  lemma {:induction false} CarefulInv(ss: seq<Sys>, i: nat, maxBytes: int, hash: string -> string)
    requires Careful(ss, maxBytes, hash) && i < |ss| && Inv(ss[0], maxBytes)
    ensures Inv(ss[i], maxBytes)
  {
    hide Step, TempsApart, Inv;
    if i > 0 {
      CarefulInv(ss, i - 1, maxBytes, hash);
      assert Step(ss[i - 1], ss[i - 1 + 1], maxBytes, hash) && TempsApart(ss[i - 1], ss[i - 1 + 1], maxBytes);
      StepInv(ss[i - 1], ss[i], maxBytes, hash);
    }
  }

  lemma TraceInv(ss: seq<Sys>, i: nat, maxBytes: int, hash: string -> string)
    requires CarefulTrace(ss, maxBytes, hash) && i < |ss|
    ensures Inv(ss[i], maxBytes)
  {
    hide Step, TempsApart;
    assert Inv(INITIAL, maxBytes);
    hide Inv;
    CarefulInv(ss, i, maxBytes, hash);
  }

  // ----- publication

  /** A reader of the name sees all that some single writer copied under it, within the limit. */
  ghost predicate SeenWhole(s: Sys, name: string, maxBytes: int)
    requires name in s.files
  {
    exists w :: w in s.writers && s.writers[w].name == name
                && Content(s, s.files[name]) == s.writers[w].source && |s.writers[w].source| <= maxBytes
  }

  /**
   Publication is atomic: over every interleaving, uploads and deletions under temporary and sidecar names included,
   that links no other file to a temporary name which may still be renamed: whenever a name exists that is no temporary
   one, its file is the complete byte string copied by one single writer under that name, and within the size limit, or
   it is a sidecar the store has written. Readers never see a part or a mixture of bodies.
   */
  lemma PublicationAtomic(ss: seq<Sys>, i: nat, name: string, maxBytes: int, hash: string -> string)
    requires CarefulTrace(ss, maxBytes, hash) && i < |ss| && name in ss[i].files && Final(name)
    ensures SeenWhole(ss[i], name, maxBytes) || (IsSidecar(name) && ss[i].files[name].Text?)
  {
    hide Step, TempsApart;
    TraceInv(ss, i, maxBytes, hash);
    var e := ss[i].files[name];
    if e.File? {
      assert Whole(ss[i], name, e, maxBytes);
      var x := ss[i].writers[e.writer];
      assert x.source[..x.copied] == x.source;
    }
  }

  /**
   The condition on temporary names is exact: after any careful run, a further step respects it if and only if every
   careful continuation leaves only completely filled files of their own writers under the blobs' names.
   */
  lemma TempsDecideAtomicity(ss: seq<Sys>, t: Sys, maxBytes: int, hash: string -> string)
    requires CarefulTrace(ss, maxBytes, hash) && Step(ss[|ss| - 1], t, maxBytes, hash)
    ensures TempsApart(ss[|ss| - 1], t, maxBytes)
       <==> forall more: seq<Sys> :: more != [] && more[0] == t && Careful(more, maxBytes, hash) ==>
              AllWhole(more[|more| - 1], maxBytes)
  {
    hide Step, TempsApart, Inv, Careful, AllWhole;
    var s := ss[|ss| - 1];
    TraceInv(ss, |ss| - 1, maxBytes, hash);
    if TempsApart(s, t, maxBytes) {
      StepInv(s, t, maxBytes, hash);
      forall more: seq<Sys> | more != [] && more[0] == t && Careful(more, maxBytes, hash)
        ensures AllWhole(more[|more| - 1], maxBytes)
      {
        CarefulInv(more, |more| - 1, maxBytes, hash);
        InvIsWhole(more[|more| - 1], maxBytes);
      }
    } else {
      var more := WrongLinkPublishes(s, t, maxBytes, hash);
    }
  }

  lemma InvIsWhole(s: Sys, maxBytes: int)
    requires Inv(s, maxBytes)
    ensures AllWhole(s, maxBytes)
  {
  }

  /** The entry is another writer's file, and unfinished or meant for another name. */
  predicate WrongLink(t: Sys, v: nat, e: Entry)
    requires v in t.writers
  {
    && e.File? && e.writer in t.writers && e.writer != v
    && var y := t.writers[e.writer];
    && (y.name != t.writers[v].name || y.copied < |y.source|)
  }

  /** The writer may still publish, but its temporary name no longer links to a file of its own. */
  ghost predicate Misled(t: Sys, v: nat, maxBytes: int) {
    && v in t.writers && CouldPublish(t.writers[v], maxBytes) && t.writers[v].copied <= |t.writers[v].source|
    && t.writers[v].temp in t.files && WrongLink(t, v, t.files[t.writers[v].temp])
  }

  ghost predicate TempsShaped(t: Sys) {
    forall w :: w in t.writers ==> TempOf(t.writers[w])
  }

  /** It goes wrong in two steps: the misled writer copies the rest of its own body and renames the other file. */
  lemma WrongLinkPublishes(s: Sys, t: Sys, maxBytes: int, hash: string -> string) returns (more: seq<Sys>)
    requires Inv(s, maxBytes) && Step(s, t, maxBytes, hash) && !TempsApart(s, t, maxBytes)
    ensures more != [] && more[0] == t && Careful(more, maxBytes, hash) && !AllWhole(more[|more| - 1], maxBytes)
  {
    hide *;
    var v := FindMisled(s, t, maxBytes, hash);
    StepTempsShaped(s, t, maxBytes, hash);
    MisledFacts(t, v, maxBytes);
    var filled := AllCopied(t, v);
    FilledThenRenamed(t, v, maxBytes);
    var last := Renamed(filled, v);
    StepsTo(t, filled, last, v, maxBytes, hash);
    TwoSteps(t, filled, last, maxBytes, hash);
    more := [t, filled, last];
  }

  lemma MisledFacts(t: Sys, v: nat, maxBytes: int)
    requires Misled(t, v, maxBytes)
    ensures v in t.writers && t.writers[v].temp in t.files
  {
  }

  lemma FindMisled(s: Sys, t: Sys, maxBytes: int, hash: string -> string) returns (v: nat)
    requires Inv(s, maxBytes) && Step(s, t, maxBytes, hash) && !TempsApart(s, t, maxBytes)
    ensures Misled(t, v, maxBytes)
  {
    hide Inv, Step, Misled;
    if !NoReuse(s, t, maxBytes) {
      var w;
      v, w := Reuser(s, t, maxBytes);
      ReusedName(s, t, v, w, maxBytes, hash);
    } else {
      var w;
      v, w := Overwriter(s, t, maxBytes);
      OverwrittenName(s, t, v, w, maxBytes, hash);
    }
  }

  lemma Reuser(s: Sys, t: Sys, maxBytes: int) returns (v: nat, w: nat)
    requires !NoReuse(s, t, maxBytes)
    ensures v in s.writers && CouldPublish(s.writers[v], maxBytes) && w in NewWriters(s, t) && w in t.writers
    ensures t.writers[w].temp == s.writers[v].temp
  {
    v, w :| v in s.writers && CouldPublish(s.writers[v], maxBytes) && w in NewWriters(s, t)
            && t.writers[w].temp == s.writers[v].temp;
  }

  lemma Overwriter(s: Sys, t: Sys, maxBytes: int) returns (v: nat, w: nat)
    requires !NoTempUpload(s, t, maxBytes)
    ensures v in s.writers && CouldPublish(s.writers[v], maxBytes) && Publishes(s, t, w)
    ensures s.writers[w].name == s.writers[v].temp
  {
    v, w :| v in s.writers && CouldPublish(s.writers[v], maxBytes) && Publishes(s, t, w)
            && s.writers[w].name == s.writers[v].temp;
  }

  /** After a reuse the first user's temporary name links to the new writer's empty file. */
  lemma ReusedName(s: Sys, t: Sys, v: nat, w: nat, maxBytes: int, hash: string -> string)
    requires Inv(s, maxBytes) && Step(s, t, maxBytes, hash) && v in s.writers && w in NewWriters(s, t) && w in t.writers
    requires CouldPublish(s.writers[v], maxBytes) && t.writers[w].temp == s.writers[v].temp
    ensures Misled(t, v, maxBytes)
  {
    NewWriterBegins(s, t, w, maxBytes, hash);
    assert OwnTemp(s, v, maxBytes);
    hide Inv, Plain, ValidName, TempName, TempOf, OwnTemp, Step;
  }

  /** After an upload under it the temporary name links to a file that was meant for a longer name. */
  lemma OverwrittenName(s: Sys, t: Sys, v: nat, w: nat, maxBytes: int, hash: string -> string)
    requires Inv(s, maxBytes) && Step(s, t, maxBytes, hash) && v in s.writers && Publishes(s, t, w)
    requires CouldPublish(s.writers[v], maxBytes) && s.writers[w].name == s.writers[v].temp
    ensures Misled(t, v, maxBytes)
  {
    PublishesByPublish(s, t, w, maxBytes, hash);
    hide Step;
    var x := s.writers[w];
    assert OwnTemp(s, v, maxBytes) && OwnTemp(s, w, maxBytes);
    TempIsLonger(s.writers[v]);
    TempIsLonger(x);
    var e := s.files[x.temp];
    assert e.File?;
    if s.writers[e.writer].temp == x.temp {
      assert OwnTemp(s, e.writer, maxBytes);
      SameTemps(s.writers[e.writer], x);
    }
    assert |s.writers[e.writer].name| > |s.writers[v].name|;
    hide Inv, OwnTemp, TempOf, Final;
  }

  function AllCopied(t: Sys, v: nat): Sys
    requires v in t.writers
  {
    t.(writers := t.writers[v := t.writers[v].(copied := |t.writers[v].source|)])
  }

  function Renamed(t: Sys, v: nat): Sys
    requires v in t.writers && t.writers[v].temp in t.files
  {
    var x := t.writers[v];
    t.(files := (t.files - {x.temp})[x.name := t.files[x.temp]], writers := t.writers[v := x.(phase := Published)])
  }

  lemma FilledThenRenamed(t: Sys, v: nat, maxBytes: int)
    requires Misled(t, v, maxBytes) && TempsShaped(t)
    ensures v in AllCopied(t, v).writers && AllCopied(t, v).writers[v].temp in AllCopied(t, v).files
    ensures var filled := AllCopied(t, v); var last := Renamed(filled, v);
      && (t == filled || CopySome(t, filled, v, |t.writers[v].source|))
      && Publish(filled, last, v, maxBytes) && !AllWhole(last, maxBytes)
      && TempsApart(t, filled, maxBytes) && TempsApart(filled, last, maxBytes)
  {
    hide TempOf;
    var x, filled := t.writers[v], AllCopied(t, v);
    if x.copied == |x.source| {
      assert t.writers[v := x] == t.writers;
    }
    var last := Renamed(filled, v);
    assert x.name in last.files && !Whole(last, x.name, last.files[x.name], maxBytes);
    forall w | w in t.writers
      ensures t.writers[w].temp != x.name
    {
      TempIsLonger(t.writers[w]);
    }
    hide Final;
    assert forall w :: !Publishes(t, filled, w);
    assert forall w :: Publishes(filled, last, w) ==> w == v;
  }

  lemma TwoSteps(a: Sys, b: Sys, c: Sys, maxBytes: int, hash: string -> string)
    requires Step(a, b, maxBytes, hash) && TempsApart(a, b, maxBytes)
    requires Step(b, c, maxBytes, hash) && TempsApart(b, c, maxBytes)
    ensures Careful([a, b, c], maxBytes, hash)
  {
    hide Step, TempsApart;
  }

  lemma StepsTo(t: Sys, filled: Sys, last: Sys, v: nat, maxBytes: int, hash: string -> string)
    requires v in t.writers && (t == filled || CopySome(t, filled, v, |t.writers[v].source|))
    requires Publish(filled, last, v, maxBytes)
    ensures Step(t, filled, maxBytes, hash) && Step(filled, last, maxBytes, hash)
  {
    hide CopySome, Publish;
  }

  lemma StepTempsShaped(s: Sys, t: Sys, maxBytes: int, hash: string -> string)
    requires Inv(s, maxBytes) && Step(s, t, maxBytes, hash)
    ensures TempsShaped(t)
  {
    StepOnward(s, t, maxBytes, hash);
    forall w | w in t.writers
      ensures TempOf(t.writers[w])
    {
      if w in s.writers {
        assert OwnTemp(s, w, maxBytes);
      } else {
        NewWriterBegins(s, t, w, maxBytes, hash);
      }
    }
  }

  lemma PublishesByPublish(s: Sys, t: Sys, w: nat, maxBytes: int, hash: string -> string)
    requires Step(s, t, maxBytes, hash) && Publishes(s, t, w)
    ensures Publish(s, t, w, maxBytes)
  {
    hide Plain, ValidName, HashName, TempName, AllDigits;
  }

  lemma NewWriterBegins(s: Sys, t: Sys, w: nat, maxBytes: int, hash: string -> string)
    requires Step(s, t, maxBytes, hash) && w in t.writers && w !in s.writers
    ensures exists name, source, digits :: Begin(s, t, w, name, source, digits)
  {
    hide Plain, ValidName, HashName, TempName, AllDigits, CopySome, Abort, CleanUp, RejectBlob;
    hide RejectSidecar, Remove, RemoveDirectory;
    if v, name, source, digits :| Begin(s, t, v, name, source, digits) {
      assert v == w;
    } else if v :| Publish(s, t, v, maxBytes) {
    } else if v :| WriteSidecar(s, t, v, hash) {
    } else if v: nat, k: nat :| TearSidecar(s, t, v, k, hash) {
    } else {
      QuietStepIsQuiet(s, t);
    }
  }

  lemma FilledStays(s: Sys, t: Sys, w: nat, maxBytes: int, hash: string -> string)
    requires Step(s, t, maxBytes, hash) && w in s.writers && s.writers[w].copied == |s.writers[w].source|
    ensures w in t.writers && t.writers[w].source == s.writers[w].source && t.writers[w].copied == s.writers[w].copied
  {
    hide Plain, ValidName, HashName, TempName;
  }

  lemma {:induction false} FilledForGood(ss: seq<Sys>, i: nat, j: nat, w: nat, maxBytes: int, hash: string -> string)
    requires Trace(ss, maxBytes, hash) && i <= j < |ss|
    requires w in ss[i].writers && ss[i].writers[w].copied == |ss[i].writers[w].source|
    ensures w in ss[j].writers && ss[j].writers[w].source == ss[i].writers[w].source
    ensures ss[j].writers[w].copied == ss[i].writers[w].copied
    decreases j
  {
    hide Step;
    if i < j {
      FilledForGood(ss, i, j - 1, w, maxBytes, hash);
      assert Step(ss[j - 1], ss[j - 1 + 1], maxBytes, hash);
      FilledStays(ss[j - 1], ss[j], w, maxBytes, hash);
    }
  }

  /**
   Once published, a file stays as it is: whoever opened it at any time reads the same bytes ever after, also when the
   name has been removed or renamed over in the meantime.
   */
  lemma OpenedFileIsFrozen(ss: seq<Sys>, i: nat, j: nat, name: string, maxBytes: int, hash: string -> string)
    requires CarefulTrace(ss, maxBytes, hash) && i <= j < |ss| && name in ss[i].files && Plain(name)
    ensures Content(ss[j], ss[i].files[name]) == Content(ss[i], ss[i].files[name])
  {
    hide Step, TempsApart, TempShaped, IsSidecar, OwnTemp;
    TraceInv(ss, i, maxBytes, hash);
    assert Whole(ss[i], name, ss[i].files[name], maxBytes);
    FilledForGood(ss, i, j, ss[i].files[name].writer, maxBytes, hash);
  }

  // ----- when sidecars agree with their blobs

  /** No writer of the blob has still to write its sidecar. */
  ghost predicate Settled(s: Sys, name: string) {
    forall w :: w in s.writers && s.writers[w].name == name ==> s.writers[w].phase != Published
  }

  ghost predicate SidecarRight(s: Sys, name: string, hash: string -> string) {
    name in s.files && HashName(name) in s.files ==>
      Content(s, s.files[HashName(name)]) == hash(Content(s, s.files[name])) + "\n"
  }

  /** The writer leaves the phase between its rename and its sidecar. */
  predicate Unpublishes(s: Sys, t: Sys, w: nat, name: string) {
    && w in s.writers && w in t.writers && s.writers[w].name == name
    && s.writers[w].phase == Published && t.writers[w].phase != Published
  }

  /** It does so as the last one of its blob. */
  ghost predicate Settles(s: Sys, t: Sys, w: nat, name: string) {
    Unpublishes(s, t, w, name) && Settled(t, name)
  }

  /**
   If there still is a blob when the last of its writers is done with the sidecar, that sidecar was written for the
   bytes in place; or it could not even be opened, and no sidecar of other bytes was there before. A write that failed
   after the opening never fits.
   */
  ghost predicate LastSidecarFits(s: Sys, t: Sys, name: string, hash: string -> string) {
    forall w :: Settles(s, t, w, name) && name in s.files ==>
      && t.writers[w].phase != Unlabelled
      && (t.writers[w].phase == Labelled ==> hash(s.writers[w].source) == hash(Content(s, s.files[name])))
      && (t.writers[w].phase == Returned ==> SidecarRight(s, name, hash))
  }

  /** An upload under the sidecar's own name, of a settled blob, brings the hash of the bytes in place. */
  ghost predicate SidecarUploadFits(s: Sys, t: Sys, name: string, hash: string -> string) {
    name in s.files && HashName(name) in t.files && Settled(t, name)
    && (exists w :: Publishes(s, t, w) && s.writers[w].name == HashName(name)) ==>
      Content(s, t.files[HashName(name)]) == hash(Content(s, s.files[name])) + "\n"
  }

  /** A hash is a single line of text. */
  ghost predicate OneLine(hash: string -> string) {
    forall data :: '\n' !in hash(data)
  }

  ghost predicate Agrees(s: Sys, name: string, hash: string -> string) {
    Settled(s, name) ==> SidecarRight(s, name, hash)
  }

  lemma LinesEqualIff(a: string, b: string)
    ensures a + "\n" == b + "\n" <==> a == b
  {
    assert (a + "\n")[..|a|] == a && (b + "\n")[..|b|] == b;
  }

  /** Both files of a blob show the same bytes after any step that leaves them in place. */
  lemma BlobFilesStay(s: Sys, t: Sys, name: string, f: string, maxBytes: int)
    requires AllWhole(s, maxBytes) && Onward(s, t) && Plain(name) && (f == name || f == HashName(name)) && f in s.files
    ensures Content(t, s.files[f]) == Content(s, s.files[f])
  {
    HashNameIsFinal(name);
    hide Final, IsSidecar, HashName;
    if s.files[f].File? {
      assert Whole(s, f, s.files[f], maxBytes);
    }
  }

  lemma HashNameIsFinal(name: string)
    ensures Final(HashName(name)) && HashName(name) != name
  {
    HashNameIsPlainOfNone(name);
    assert |HashName(name)| > |name| && |HashName(name)| > 1;
  }

  /** A step that touches neither file of the blob, except to remove it, and settles nothing. */
  lemma AgreesKept(s: Sys, t: Sys, name: string, maxBytes: int, hash: string -> string)
    requires AllWhole(s, maxBytes) && Onward(s, t) && Plain(name) && Agrees(s, name, hash)
    requires Settled(t, name) ==> Settled(s, name)
    requires forall f :: (f == name || f == HashName(name)) && f in t.files ==> f in s.files && t.files[f] == s.files[f]
    ensures Agrees(t, name, hash)
  {
    hide Plain, HashName, Settled, Content, AllWhole, Onward;
    if name in t.files && HashName(name) in t.files {
      BlobFilesStay(s, t, name, name, maxBytes);
      BlobFilesStay(s, t, name, HashName(name), maxBytes);
    }
  }

  lemma TempIsAside(x: Writer, name: string)
    requires TempOf(x) && Plain(name)
    ensures x.temp != name && x.temp != HashName(name)
  {
    hide TempName;
    assert TempShaped(x.temp);
    HashNameIsPlainOfNone(name);
  }

  lemma StepOnward(s: Sys, t: Sys, maxBytes: int, hash: string -> string)
    requires Step(s, t, maxBytes, hash)
    ensures Onward(s, t)
  {
    hide Plain, ValidName, HashName, TempName, OnlyRemoves, CopySome, Abort, CleanUp, RejectBlob;
    hide RejectSidecar, Remove, RemoveDirectory;
    if v, name, source, digits :| Begin(s, t, v, name, source, digits) {
    } else if v :| Publish(s, t, v, maxBytes) {
    } else if v :| WriteSidecar(s, t, v, hash) {
    } else if v: nat, k: nat :| TearSidecar(s, t, v, k, hash) {
    } else {
      QuietStepIsQuiet(s, t);
    }
  }

  lemma PartIsNoLine(a: string, b: string, k: nat)
    requires '\n' !in a && k <= |a|
    ensures (a + "\n")[..k] != b + "\n"
  {
    var line := b + "\n";
    assert line[|b|] == '\n';
    assert (a + "\n")[..k] == a[..k];
  }

  /** A step settles a blob only by a sidecar, whole or torn, or a clean-up. */
  lemma SettlesBy(s: Sys, t: Sys, w: nat, name: string, maxBytes: int, hash: string -> string)
    requires Step(s, t, maxBytes, hash) && Settles(s, t, w, name)
    ensures WriteSidecar(s, t, w, hash) || (exists k :: TearSidecar(s, t, w, k, hash)) || CleanUp(s, t, w)
  {
    hide Plain, ValidName, HashName, TempName, AllDigits, Settled;
  }

  /** What the three ways of settling have in common. */
  lemma SettlingFacts(s: Sys, t: Sys, w: nat, hash: string -> string)
    requires WriteSidecar(s, t, w, hash) || (exists k :: TearSidecar(s, t, w, k, hash)) || CleanUp(s, t, w)
    ensures w in s.writers && t.writers.Keys == s.writers.Keys
    ensures forall v :: v in s.writers && v != w ==> t.writers[v] == s.writers[v]
    ensures t.writers[w].phase in {Labelled, Unlabelled, Returned}
    ensures t.writers[w] == s.writers[w].(phase := t.writers[w].phase)
    ensures CleanUp(s, t, w) ==> t.writers[w].phase == Returned && t.files == s.files - {s.writers[w].temp}
    ensures forall f :: f != HashName(s.writers[w].name) && f != s.writers[w].temp ==>
              (f in t.files <==> f in s.files) && (f in s.files ==> t.files[f] == s.files[f])
  {
    hide HashName;
  }

  /** The blob's own file and its bytes are the same before and after its writer settles it. */
  lemma SettledBlob(s: Sys, t: Sys, w: nat, name: string, maxBytes: int, hash: string -> string)
    requires Inv(s, maxBytes) && Plain(name) && Settles(s, t, w, name)
    requires WriteSidecar(s, t, w, hash) || (exists k :: TearSidecar(s, t, w, k, hash)) || CleanUp(s, t, w)
    ensures s.writers[w].temp != name && s.writers[w].temp != HashName(name) && name != HashName(name)
    ensures name in t.files <==> name in s.files
    ensures name in s.files ==> t.files[name] == s.files[name]
    ensures name in s.files ==> Content(t, t.files[name]) == Content(s, s.files[name])
    ensures CleanUp(s, t, w) ==>
              && (HashName(name) in t.files <==> HashName(name) in s.files)
              && (HashName(name) in s.files ==> t.files[HashName(name)] == s.files[HashName(name)])
    ensures forall v :: !Publishes(s, t, v)
    ensures Onward(s, t) && t.writers[w].phase in {Labelled, Unlabelled, Returned}
    ensures CleanUp(s, t, w) ==> t.writers[w].phase == Returned
    ensures t.writers.Keys == s.writers.Keys && forall v :: v in s.writers && v != w ==> t.writers[v] == s.writers[v]
  {
    SettlingFacts(s, t, w, hash);
    assert OwnTemp(s, w, maxBytes);
    TempIsAside(s.writers[w], name);
    HashNameIsFinal(name);
    hide Plain, Final, TempOf, HashName, Settled, OwnTemp, Content, WriteSidecar, TearSidecar, CleanUp;
    if name in s.files {
      BlobFilesStay(s, t, name, name, maxBytes);
    }
  }

  lemma LabelledStep(s: Sys, t: Sys, w: nat, name: string, maxBytes: int, hash: string -> string)
    requires Inv(s, maxBytes) && Plain(name) && Settles(s, t, w, name) && WriteSidecar(s, t, w, hash)
    ensures Agrees(t, name, hash) <==> LastSidecarFits(s, t, name, hash)
  {
    SettledBlob(s, t, w, name, maxBytes, hash);
    hide Inv, Plain, HashName, Settled, Content;
    if name in s.files {
      LinesEqualIff(hash(s.writers[w].source), hash(Content(s, s.files[name])));
    }
  }

  lemma TornStep(s: Sys, t: Sys, w: nat, k: nat, name: string, maxBytes: int, hash: string -> string)
    requires Inv(s, maxBytes) && Plain(name) && Settles(s, t, w, name) && TearSidecar(s, t, w, k, hash)
    requires OneLine(hash)
    ensures Agrees(t, name, hash) <==> LastSidecarFits(s, t, name, hash)
    ensures Agrees(t, name, hash) <==> name !in s.files
  {
    SettledBlob(s, t, w, name, maxBytes, hash);
    hide Inv, Plain, HashName, Settled, Content;
    if name in s.files {
      PartIsNoLine(hash(s.writers[w].source), hash(Content(s, s.files[name])), k);
    }
  }

  /** A step settles one writer at most. */
  lemma OnlySettler(s: Sys, t: Sys, w: nat, name: string)
    requires Settles(s, t, w, name) && t.writers.Keys == s.writers.Keys
    requires forall v :: v in s.writers && v != w ==> t.writers[v] == s.writers[v]
    ensures forall v :: Settles(s, t, v, name) ==> v == w
  {
    hide Settled;
  }

  lemma CleanedStep(s: Sys, t: Sys, w: nat, name: string, maxBytes: int, hash: string -> string)
    requires Inv(s, maxBytes) && Plain(name) && Settles(s, t, w, name) && CleanUp(s, t, w)
    ensures Agrees(t, name, hash) <==> LastSidecarFits(s, t, name, hash)
  {
    SettledBlob(s, t, w, name, maxBytes, hash);
    InvIsWhole(s, maxBytes);
    hide Inv, Plain, HashName, Settled, Content, AllWhole, Onward, CleanUp, Publishes;
    if HashName(name) in s.files {
      BlobFilesStay(s, t, name, HashName(name), maxBytes);
    }
    assert SidecarRight(t, name, hash) <==> SidecarRight(s, name, hash);
    OnlySettler(s, t, w, name);
  }

  lemma SettledStep(s: Sys, t: Sys, w: nat, name: string, maxBytes: int, hash: string -> string)
    requires Inv(s, maxBytes) && Plain(name) && Settles(s, t, w, name) && OneLine(hash)
    requires WriteSidecar(s, t, w, hash) || (exists k :: TearSidecar(s, t, w, k, hash)) || CleanUp(s, t, w)
    ensures Agrees(t, name, hash) <==> LastSidecarFits(s, t, name, hash)
    ensures SidecarUploadFits(s, t, name, hash)
  {
    SettledBlob(s, t, w, name, maxBytes, hash);
    hide Inv, Plain, Settles, WriteSidecar, CleanUp, TearSidecar, Agrees, LastSidecarFits, HashName, Content, Settled;
    if WriteSidecar(s, t, w, hash) {
      LabelledStep(s, t, w, name, maxBytes, hash);
    } else if CleanUp(s, t, w) {
      CleanedStep(s, t, w, name, maxBytes, hash);
    } else {
      var k: nat :| TearSidecar(s, t, w, k, hash);
      TornStep(s, t, w, k, name, maxBytes, hash);
    }
  }

  /** A step that settles nothing, and after which a blob is settled, leaves its two files alone or removes them. */
  lemma UnsettlingStep(s: Sys, t: Sys, name: string, f: string, maxBytes: int, hash: string -> string)
    requires Step(s, t, maxBytes, hash) && Plain(name) && (f == name || f == HashName(name))
    requires forall w :: Publishes(s, t, w) ==> s.writers[w].name != HashName(name)
    requires Settled(t, name) && f in t.files && forall w :: !Settles(s, t, w, name)
    ensures f in s.files && t.files[f] == s.files[f]
  {
    hide ValidName, Plain, HashName, Settled, Publish, Settles, TempOf, TempName, CopySome, Abort;
    hide CleanUp, RejectBlob, RejectSidecar, Remove, RemoveDirectory;
    if v, n, source, digits :| Begin(s, t, v, n, source, digits) {
      TempOfNew(n, source, digits);
      TempIsAside(t.writers[v], name);
    } else if v :| Publish(s, t, v, maxBytes) {
      PublishIsPublishes(s, t, v, maxBytes);
      PublishElsewhere(s, t, v, name, f, maxBytes);
    } else if v :| WriteSidecar(s, t, v, hash) {
      SidecarElsewhere(s, t, v, name, f, Text(hash(s.writers[v].source) + "\n"), Labelled);
    } else if v: nat, k: nat :| TearSidecar(s, t, v, k, hash) {
      SidecarElsewhere(s, t, v, name, f, Text((hash(s.writers[v].source) + "\n")[..k]), Unlabelled);
    } else {
      QuietStepIsQuiet(s, t);
    }
  }

  lemma TempOfNew(name: string, source: string, digits: string)
    requires digits != "" && AllDigits(digits)
    ensures TempOf(Writer(name, source, TempName(name, digits), 0, Copying))
  {
    hide TempName;
  }

  lemma PublishIsPublishes(s: Sys, t: Sys, w: nat, maxBytes: int)
    requires Publish(s, t, w, maxBytes)
    ensures Publishes(s, t, w)
  {
  }

  lemma PublishElsewhere(s: Sys, t: Sys, w: nat, name: string, f: string, maxBytes: int)
    requires Publish(s, t, w, maxBytes) && (f == name || f == HashName(name)) && s.writers[w].name != HashName(name)
    requires Settled(t, name) && f in t.files
    ensures f in s.files && t.files[f] == s.files[f]
  {
    hide Plain, HashName;
    assert t.writers[w].phase == Published;
  }

  lemma SidecarElsewhere(s: Sys, t: Sys, w: nat, name: string, f: string, e: Entry, phase: Phase)
    requires w in s.writers && s.writers[w].phase == Published && phase != Published
    requires t == s.(files := s.files[HashName(s.writers[w].name) := e],
                     writers := s.writers[w := s.writers[w].(phase := phase)])
    requires Plain(name) && (f == name || f == HashName(name))
    requires Settled(t, name) && f in t.files && !Settles(s, t, w, name)
    ensures f in s.files && t.files[f] == s.files[f]
  {
    BaseOfHashName(name);
    BaseOfHashName(s.writers[w].name);
    HashNameIsPlainOfNone(s.writers[w].name);
    hide Plain, HashName, Base, Settled;
  }

  /** An upload under the name of a blob's sidecar leaves the blob alone. */
  lemma UploadedBlob(s: Sys, t: Sys, w: nat, name: string, maxBytes: int)
    requires Inv(s, maxBytes) && Publish(s, t, w, maxBytes) && s.writers[w].name == HashName(name) && Plain(name)
    ensures name in t.files <==> name in s.files
    ensures name in s.files ==> t.files[name] == s.files[name] && Content(t, s.files[name]) == Content(s, s.files[name])
    ensures HashName(name) in t.files
    ensures Content(t, t.files[HashName(name)]) == Content(s, t.files[HashName(name)])
    ensures Publishes(s, t, w)
    ensures forall v :: v in s.writers && v != w ==> v in t.writers && t.writers[v] == s.writers[v]
  {
    assert OwnTemp(s, w, maxBytes);
    TempIsAside(s.writers[w], name);
    HashNameIsFinal(name);
    InvIsWhole(s, maxBytes);
    hide Plain, Final, TempOf, HashName, OwnTemp, Inv;
    assert Onward(s, t);
    if name in s.files {
      BlobFilesStay(s, t, name, name, maxBytes);
    }
  }

  /** An upload under the name of a settled blob's sidecar settles nothing; the bytes decide. */
  lemma UploadedStep(s: Sys, t: Sys, w: nat, name: string, maxBytes: int, hash: string -> string)
    requires Inv(s, maxBytes) && Publish(s, t, w, maxBytes) && s.writers[w].name == HashName(name) && Plain(name)
    ensures Agrees(t, name, hash) <==> SidecarUploadFits(s, t, name, hash)
    ensures LastSidecarFits(s, t, name, hash)
  {
    UploadedBlob(s, t, w, name, maxBytes);
    hide Inv, Publish, Plain, HashName, Content, Settled;
  }

  /** What a step may do to a blob and its sidecar. */
  ghost predicate SidecarStepFits(s: Sys, t: Sys, name: string, hash: string -> string) {
    LastSidecarFits(s, t, name, hash) && SidecarUploadFits(s, t, name, hash)
  }

  /** One step keeps agreement exactly if the sidecar it leaves fits. */
  lemma AgreesStepIff(s: Sys, t: Sys, name: string, maxBytes: int, hash: string -> string)
    requires Inv(s, maxBytes) && Step(s, t, maxBytes, hash) && Plain(name) && Agrees(s, name, hash)
    requires OneLine(hash)
    ensures Agrees(t, name, hash) <==> SidecarStepFits(s, t, name, hash)
  {
    hide Step, Inv, Plain, HashName, SidecarRight, OneLine;
    StepOnward(s, t, maxBytes, hash);
    if w :| Settles(s, t, w, name) {
      SettlesBy(s, t, w, name, maxBytes, hash);
      SettledStep(s, t, w, name, maxBytes, hash);
    } else if w :| Publishes(s, t, w) && s.writers[w].name == HashName(name) {
      PublishesByPublish(s, t, w, maxBytes, hash);
      UploadedStep(s, t, w, name, maxBytes, hash);
    } else if Settled(t, name) {
      NothingSettles(s, t, name, maxBytes, hash);
    }
  }

  lemma NothingSettles(s: Sys, t: Sys, name: string, maxBytes: int, hash: string -> string)
    requires Inv(s, maxBytes) && Step(s, t, maxBytes, hash) && Plain(name) && Agrees(s, name, hash)
    requires Settled(t, name) && Onward(s, t) && forall w :: !Settles(s, t, w, name)
    requires forall w :: Publishes(s, t, w) ==> s.writers[w].name != HashName(name)
    ensures Agrees(t, name, hash)
  {
    hide Step, Inv, Plain, HashName, SidecarRight;
    forall f | (f == name || f == HashName(name)) && f in t.files
      ensures f in s.files && t.files[f] == s.files[f]
    {
      UnsettlingStep(s, t, name, f, maxBytes, hash);
    }
    InvIsWhole(s, maxBytes);
    forall v | v in s.writers && s.writers[v].name == name
      ensures s.writers[v].phase != Published
    {
      assert !Settles(s, t, v, name);
    }
    AgreesKept(s, t, name, maxBytes, hash);
  }

  /**
   Over whole runs and for every blob: whenever no writer of it has still to write its sidecar, a sidecar beside the
   blob is the hash of the blob's content, if and only if each time the last of overlapping writers was done with its
   sidecar, and each time something was uploaded under the sidecar's own name, that sidecar fitted the bytes in place.
   */
  lemma SidecarsAgreeIff(ss: seq<Sys>, name: string, maxBytes: int, hash: string -> string)
    requires CarefulTrace(ss, maxBytes, hash) && Plain(name) && OneLine(hash)
    ensures (forall k :: 0 <= k < |ss| ==> Agrees(ss[k], name, hash))
       <==> (forall k :: 0 <= k < |ss| - 1 ==> SidecarStepFits(ss[k], ss[k + 1], name, hash))
  {
    hide Step, TempsApart, Plain, SidecarStepFits, OneLine;
    forall k | 0 <= k < |ss| - 1
      ensures Agrees(ss[k], name, hash) ==>
                (Agrees(ss[k + 1], name, hash) <==> SidecarStepFits(ss[k], ss[k + 1], name, hash))
    {
      TraceInv(ss, k, maxBytes, hash);
      if Agrees(ss[k], name, hash) {
        AgreesStepIff(ss[k], ss[k + 1], name, maxBytes, hash);
      }
    }
    assert Agrees(ss[0], name, hash);
    hide Agrees;
    if forall k :: 0 <= k < |ss| - 1 ==> SidecarStepFits(ss[k], ss[k + 1], name, hash) {
      forall k | 0 <= k < |ss|
        ensures Agrees(ss[k], name, hash)
      {
        AgreesUpTo(ss, k, name, hash);
      }
    }
  }

  /**
   Writers of the blob take turns: each writes its sidecar while its own file is still in place, and nothing is uploaded
   under the sidecar's name.
   */
  ghost predicate InTurn(s: Sys, t: Sys, name: string) {
    && (forall w :: Unpublishes(s, t, w, name) ==>
          t.writers[w].phase == Labelled && name in s.files && s.files[name] == File(w))
    && (forall w :: Publishes(s, t, w) ==> s.writers[w].name != HashName(name))
  }

  /** In particular, sidecars always agree with their blobs if no writer's blob is replaced before its sidecar. */
  lemma SidecarsAgreeInTurn(ss: seq<Sys>, name: string, k: nat, maxBytes: int, hash: string -> string)
    requires CarefulTrace(ss, maxBytes, hash) && Plain(name) && OneLine(hash) && k < |ss|
    requires forall i :: 0 <= i < |ss| - 1 ==> InTurn(ss[i], ss[i + 1], name)
    ensures Agrees(ss[k], name, hash)
  {
    hide Step, TempsApart, Plain, Agrees, InTurn, SidecarStepFits, OneLine;
    forall i | 0 <= i < |ss| - 1
      ensures SidecarStepFits(ss[i], ss[i + 1], name, hash)
    {
      TraceInv(ss, i, maxBytes, hash);
      InTurnFits(ss[i], ss[i + 1], name, maxBytes, hash);
    }
    SidecarsAgreeIff(ss, name, maxBytes, hash);
  }

  lemma InTurnFits(s: Sys, t: Sys, name: string, maxBytes: int, hash: string -> string)
    requires Inv(s, maxBytes) && InTurn(s, t, name) && Plain(name)
    ensures SidecarStepFits(s, t, name, hash)
  {
    hide IsSidecar, TempShaped, Settled, SidecarRight, OwnTemp;
    forall w | Settles(s, t, w, name) && name in s.files
      ensures t.writers[w].phase == Labelled && hash(s.writers[w].source) == hash(Content(s, s.files[name]))
    {
      assert Whole(s, name, s.files[name], maxBytes);
      assert s.writers[w].source[..s.writers[w].copied] == s.writers[w].source;
    }
  }

  /**
   One writer is enough for a wrong sidecar: in every careful run, when the last write of a blob's sidecar fails after
   the sidecar has been opened, blob and sidecar agree after that step exactly if the blob has been removed meanwhile.
   */
  lemma TornSidecarFitsIff(
    ss: seq<Sys>, i: nat, w: nat, k: nat, name: string, maxBytes: int, hash: string -> string)
    requires CarefulTrace(ss, maxBytes, hash) && Plain(name) && OneLine(hash) && i + 1 < |ss|
    requires TearSidecar(ss[i], ss[i + 1], w, k, hash) && ss[i].writers[w].name == name && Settled(ss[i + 1], name)
    ensures Agrees(ss[i + 1], name, hash) <==> name !in ss[i].files
  {
    hide Step, TempsApart, Plain, Agrees, LastSidecarFits, OneLine, Settled, Inv;
    TraceInv(ss, i, maxBytes, hash);
    TornStep(ss[i], ss[i + 1], w, k, name, maxBytes, hash);
  }

  lemma {:induction false} AgreesUpTo(ss: seq<Sys>, k: nat, name: string, hash: string -> string)
    requires k < |ss| && Agrees(ss[0], name, hash)
    requires forall i :: 0 <= i < |ss| - 1 ==> Agrees(ss[i], name, hash) ==> Agrees(ss[i + 1], name, hash)
    ensures Agrees(ss[k], name, hash)
  {
    hide Agrees;
    if k > 0 {
      AgreesUpTo(ss, k - 1, name, hash);
      assert Agrees(ss[k - 1 + 1], name, hash);
    }
  }

  // ----- three runs that go wrong

  const NAME := "x"

  function Dir(files: map<string, Entry>, writers: map<nat, Writer>): Sys {
    Sys(files, writers, true)
  }

  function Filled(source: string, temp: string, phase: Phase): Writer {
    Writer(NAME, source, temp, |source|, phase)
  }

  function Empty(source: string, temp: string): Writer {
    Writer(NAME, source, temp, 0, Copying)
  }

  const T1 := TempName(NAME, "1")
  const T2 := TempName(NAME, "2")

  lemma RaceNames()
    ensures ValidName(NAME) && Plain(NAME) && T1 != T2 && T1 != NAME && T2 != NAME && HashName(NAME) != NAME
    ensures HashName(NAME) != T1 && HashName(NAME) != T2
  {
    forall name, digits | digits != "" && AllDigits(digits)
      ensures TempName(name, digits) != NAME
    {
      assert |TempName(name, digits)| > 1;
    }
    TempIsNoSidecar(NAME, "1");
    TempIsNoSidecar(NAME, "2");
    BaseOfHashName(NAME);
    assert T1[|T1| - 1] == '1' && T2[|T2| - 1] == '2';
  }

  ghost predicate SidecarWrong(s: Sys, name: string, hash: string -> string) {
    && name in s.files && HashName(name) in s.files
    && Content(s, s.files[HashName(name)]) != hash(Content(s, s.files[name])) + "\n"
    && forall w :: w in s.writers ==> s.writers[w].phase == Labelled
  }

  /**
   Two writers of one name can leave a sidecar that does not belong to the blob, with nothing left to do but clean up:
   one renames first and writes its sidecar last. It takes only two bodies with different hashes.
   */
  lemma SidecarCanBeWrong(hash: string -> string, a: string, b: string, maxBytes: int)
    requires hash(a) != hash(b) && 0 < |a| <= maxBytes && 0 < |b| <= maxBytes
    ensures exists ss: seq<Sys> :: CarefulTrace(ss, maxBytes, hash) && SidecarWrong(ss[|ss| - 1], NAME, hash)
  {
    RaceSteps(hash, a, b, maxBytes);
    RaceOutcome(hash, a, b);
    RaceCareful(hash, a, b, maxBytes);
    var ss := seq(9, k requires 0 <= k < 9 => RaceState(hash, a, b, k));
    assert ss[0] == INITIAL;
    hide Step, RaceState, SidecarWrong, TempsApart;
    assert CarefulTrace(ss, maxBytes, hash);
  }

  /** Begin 1, begin 2, copy 1, copy 2, rename 1, rename 2, sidecar 2, sidecar 1. */
  function RaceState(hash: string -> string, a: string, b: string, k: nat): Sys {
    if k == 0 then INITIAL
    else if k == 1 then Dir(map[T1 := File(1)], map[1 := Empty(a, T1)])
    else if k == 2 then Dir(map[T1 := File(1), T2 := File(2)], map[1 := Empty(a, T1), 2 := Empty(b, T2)])
    else if k == 3 then Dir(map[T1 := File(1), T2 := File(2)], map[1 := Filled(a, T1, Copying), 2 := Empty(b, T2)])
    else if k == 4 then Dir(map[T1 := File(1), T2 := File(2)],
                            map[1 := Filled(a, T1, Copying), 2 := Filled(b, T2, Copying)])
    else if k == 5 then Dir(map[NAME := File(1), T2 := File(2)],
                            map[1 := Filled(a, T1, Published), 2 := Filled(b, T2, Copying)])
    else if k == 6 then Dir(map[NAME := File(2)], map[1 := Filled(a, T1, Published), 2 := Filled(b, T2, Published)])
    else if k == 7 then Dir(map[NAME := File(2), HashName(NAME) := Text(hash(b) + "\n")],
                            map[1 := Filled(a, T1, Published), 2 := Filled(b, T2, Labelled)])
    else Dir(map[NAME := File(2), HashName(NAME) := Text(hash(a) + "\n")],
             map[1 := Filled(a, T1, Labelled), 2 := Filled(b, T2, Labelled)])
  }

  lemma RaceCareful(hash: string -> string, a: string, b: string, maxBytes: int)
    ensures forall k :: 0 <= k < 8 ==> TempsApart(RaceState(hash, a, b, k), RaceState(hash, a, b, k + 1), maxBytes)
  {
    RaceNames();
    hide HashName, TempName, ValidName, Plain;
  }

  lemma RaceOutcome(hash: string -> string, a: string, b: string)
    requires hash(a) != hash(b)
    ensures SidecarWrong(RaceState(hash, a, b, 8), NAME, hash)
  {
    RaceNames();
    hide HashName, TempName;
    var good, bad := hash(b) + "\n", hash(a) + "\n";
    assert good[..|good| - 1] == hash(b) && bad[..|bad| - 1] == hash(a);
    assert b[..|b|] == b;
  }

  lemma RaceSteps(hash: string -> string, a: string, b: string, maxBytes: int)
    requires 0 < |a| <= maxBytes && 0 < |b| <= maxBytes
    ensures forall k :: 0 <= k < 8 ==> Step(RaceState(hash, a, b, k), RaceState(hash, a, b, k + 1), maxBytes, hash)
  {
    RaceCopies(hash, a, b);
    RaceFirst(hash, a, b);
    RacePublishes(hash, a, b, maxBytes);
    RaceSecond(hash, a, b);
    RaceSidecars(hash, a, b);
    hide RaceState, Begin, CopySome, Publish, WriteSidecar;
    forall k | 0 <= k < 8
      ensures Step(RaceState(hash, a, b, k), RaceState(hash, a, b, k + 1), maxBytes, hash)
    {
      var s, t := RaceState(hash, a, b, k), RaceState(hash, a, b, k + 1);
      if k == 0 {
        assert Begin(s, t, 1, NAME, a, "1");
      } else if k == 1 {
        assert Begin(s, t, 2, NAME, b, "2");
      } else if k == 2 {
        assert CopySome(s, t, 1, |a|);
      } else if k == 3 {
        assert CopySome(s, t, 2, |b|);
      } else if k == 4 {
        assert Publish(s, t, 1, maxBytes);
      } else if k == 5 {
        assert Publish(s, t, 2, maxBytes);
      } else if k == 6 {
        assert WriteSidecar(s, t, 2, hash);
      } else {
        assert WriteSidecar(s, t, 1, hash);
      }
    }
  }

  lemma RaceFirst(hash: string -> string, a: string, b: string)
    ensures Begin(RaceState(hash, a, b, 0), RaceState(hash, a, b, 1), 1, NAME, a, "1")
  {
    RaceNames();
    hide HashName, TempName, ValidName, Plain;
  }

  lemma RaceSecond(hash: string -> string, a: string, b: string)
    ensures Begin(RaceState(hash, a, b, 1), RaceState(hash, a, b, 2), 2, NAME, b, "2")
  {
    RaceNames();
    hide HashName, TempName, ValidName, Plain;
  }

  lemma RaceCopies(hash: string -> string, a: string, b: string)
    requires 0 < |a| && 0 < |b|
    ensures CopySome(RaceState(hash, a, b, 2), RaceState(hash, a, b, 3), 1, |a|)
    ensures CopySome(RaceState(hash, a, b, 3), RaceState(hash, a, b, 4), 2, |b|)
  {
    RaceNames();
    hide HashName, TempName, ValidName, Plain;
  }

  lemma RacePublishes(hash: string -> string, a: string, b: string, maxBytes: int)
    requires |a| <= maxBytes && |b| <= maxBytes
    ensures Publish(RaceState(hash, a, b, 4), RaceState(hash, a, b, 5), 1, maxBytes)
    ensures Publish(RaceState(hash, a, b, 5), RaceState(hash, a, b, 6), 2, maxBytes)
  {
    RaceNames();
    hide HashName, TempName, ValidName, Plain;
  }

  lemma RaceSidecars(hash: string -> string, a: string, b: string)
    ensures WriteSidecar(RaceState(hash, a, b, 6), RaceState(hash, a, b, 7), 2, hash)
    ensures WriteSidecar(RaceState(hash, a, b, 7), RaceState(hash, a, b, 8), 1, hash)
  {
    RaceNames();
    hide HashName, TempName, ValidName, Plain;
    var h := HashName(NAME);
    var second, first := Text(hash(b) + "\n"), Text(hash(a) + "\n");
    assert map[NAME := File(2)][h := second] == map[NAME := File(2), h := second];
    assert map[NAME := File(2), h := second][h := first] == map[NAME := File(2), h := first];
  }

  /**
   Without the care about temporary names, publication is not atomic. A writer that has renamed frees its temporary
   name but removes it again on the way out; if a second and then a third writer are given that name in between, the
   second renames the third one's unfinished file. For every body, there is a run that leaves the blob's name on an
   empty file, though every writer's body is the given one.
   */
  lemma ReuseBreaksPublication(hash: string -> string, a: string, maxBytes: int)
    requires 0 < |a| <= maxBytes
    ensures exists ss: seq<Sys> :: Trace(ss, maxBytes, hash) && NAME in ss[|ss| - 1].files
              && !SeenWhole(ss[|ss| - 1], NAME, maxBytes)
  {
    ReuseSteps(hash, a, maxBytes);
    ReuseOutcome(hash, a, maxBytes);
    var ss := seq(10, k requires 0 <= k < 10 => ReuseState(hash, a, k));
    assert ss[0] == INITIAL;
    hide Step, ReuseState, SeenWhole;
    assert Trace(ss, maxBytes, hash);
  }

  /** Begin 1, copy 1, rename 1, begin 2, sidecar 1, clean up 1, begin 3, copy 2, rename 2. */
  function ReuseState(hash: string -> string, a: string, k: nat): Sys {
    var side := Text(hash(a) + "\n");
    if k == 0 then INITIAL
    else if k == 1 then Dir(map[T1 := File(1)], map[1 := Empty(a, T1)])
    else if k == 2 then Dir(map[T1 := File(1)], map[1 := Filled(a, T1, Copying)])
    else if k == 3 then Dir(map[NAME := File(1)], map[1 := Filled(a, T1, Published)])
    else if k == 4 then Dir(map[NAME := File(1), T1 := File(2)], map[1 := Filled(a, T1, Published), 2 := Empty(a, T1)])
    else if k == 5 then Dir(map[NAME := File(1), T1 := File(2), HashName(NAME) := side],
                            map[1 := Filled(a, T1, Labelled), 2 := Empty(a, T1)])
    else if k == 6 then Dir(map[NAME := File(1), HashName(NAME) := side],
                            map[1 := Filled(a, T1, Returned), 2 := Empty(a, T1)])
    else if k == 7 then Dir(map[NAME := File(1), T1 := File(3), HashName(NAME) := side],
                            map[1 := Filled(a, T1, Returned), 2 := Empty(a, T1), 3 := Empty(a, T1)])
    else if k == 8 then Dir(map[NAME := File(1), T1 := File(3), HashName(NAME) := side],
                            map[1 := Filled(a, T1, Returned), 2 := Filled(a, T1, Copying), 3 := Empty(a, T1)])
    else Dir(map[NAME := File(3), HashName(NAME) := side],
             map[1 := Filled(a, T1, Returned), 2 := Filled(a, T1, Published), 3 := Empty(a, T1)])
  }

  lemma ReuseOutcome(hash: string -> string, a: string, maxBytes: int)
    requires 0 < |a|
    ensures NAME in ReuseState(hash, a, 9).files && !SeenWhole(ReuseState(hash, a, 9), NAME, maxBytes)
  {
    RaceNames();
    hide HashName, TempName, ValidName, Plain;
  }

  lemma ReuseSteps(hash: string -> string, a: string, maxBytes: int)
    requires 0 < |a| <= maxBytes
    ensures forall k :: 0 <= k < 9 ==> Step(ReuseState(hash, a, k), ReuseState(hash, a, k + 1), maxBytes, hash)
  {
    ReuseCleanUp(hash, a);
    ReuseCopy(hash, a);
    ReuseFirst(hash, a);
    ReusePublish(hash, a, maxBytes);
    ReuseRename(hash, a, maxBytes);
    ReuseSecond(hash, a);
    ReuseSidecar(hash, a);
    ReuseThird(hash, a);
    hide ReuseState, Begin, CleanUp, CopySome, Publish, WriteSidecar;
    forall k | 0 <= k < 9
      ensures Step(ReuseState(hash, a, k), ReuseState(hash, a, k + 1), maxBytes, hash)
    {
      var s, t := ReuseState(hash, a, k), ReuseState(hash, a, k + 1);
      if k == 0 {
        assert Begin(s, t, 1, NAME, a, "1");
      } else if k == 1 {
        assert CopySome(s, t, 1, |a|);
      } else if k == 2 {
        assert Publish(s, t, 1, maxBytes);
      } else if k == 3 {
        assert Begin(s, t, 2, NAME, a, "1");
      } else if k == 4 {
        assert WriteSidecar(s, t, 1, hash);
      } else if k == 5 {
        assert CleanUp(s, t, 1);
      } else if k == 6 {
        assert Begin(s, t, 3, NAME, a, "1");
      } else if k == 7 {
        assert CopySome(s, t, 2, |a|);
      } else {
        assert Publish(s, t, 2, maxBytes);
      }
    }
  }

  lemma ReuseFirst(hash: string -> string, a: string)
    requires 0 < |a|
    ensures Begin(ReuseState(hash, a, 0), ReuseState(hash, a, 1), 1, NAME, a, "1")
    ensures CopySome(ReuseState(hash, a, 1), ReuseState(hash, a, 2), 1, |a|)
  {
    RaceNames();
    hide HashName, TempName, ValidName, Plain;
  }

  lemma ReusePublish(hash: string -> string, a: string, maxBytes: int)
    requires |a| <= maxBytes
    ensures Publish(ReuseState(hash, a, 2), ReuseState(hash, a, 3), 1, maxBytes)
  {
    RaceNames();
    hide HashName, TempName, ValidName, Plain;
  }

  lemma ReuseSecond(hash: string -> string, a: string)
    ensures Begin(ReuseState(hash, a, 3), ReuseState(hash, a, 4), 2, NAME, a, "1")
  {
    RaceNames();
    hide HashName, TempName, ValidName, Plain;
  }

  lemma ReuseSidecar(hash: string -> string, a: string)
    ensures WriteSidecar(ReuseState(hash, a, 4), ReuseState(hash, a, 5), 1, hash)
  {
    RaceNames();
    hide HashName, TempName, ValidName, Plain;
  }

  lemma ReuseCleanUp(hash: string -> string, a: string)
    ensures CleanUp(ReuseState(hash, a, 5), ReuseState(hash, a, 6), 1)
  {
    RaceNames();
    hide HashName, TempName, ValidName, Plain;
  }

  lemma ReuseThird(hash: string -> string, a: string)
    ensures Begin(ReuseState(hash, a, 6), ReuseState(hash, a, 7), 3, NAME, a, "1")
  {
    RaceNames();
    hide HashName, TempName, ValidName, Plain;
  }

  lemma ReuseCopy(hash: string -> string, a: string)
    requires 0 < |a|
    ensures CopySome(ReuseState(hash, a, 7), ReuseState(hash, a, 8), 2, |a|)
  {
    RaceNames();
    hide HashName, TempName, ValidName, Plain;
  }

  lemma ReuseRename(hash: string -> string, a: string, maxBytes: int)
    requires |a| <= maxBytes
    ensures Publish(ReuseState(hash, a, 8), ReuseState(hash, a, 9), 2, maxBytes)
  {
    RaceNames();
    hide HashName, TempName, ValidName, Plain;
  }

  /**
   A temporary file can be listed, and its name is a valid one to upload under. What is uploaded under it while its
   writer is still copying is then renamed over that writer's blob: for any two different bodies, the blob shows one
   that nobody sent under its name.
   */
  lemma TempUploadBreaksPublication(hash: string -> string, a: string, b: string, maxBytes: int)
    requires a != b && 0 < |a| <= maxBytes && 0 < |b| <= maxBytes
    ensures exists ss: seq<Sys> :: Trace(ss, maxBytes, hash) && NAME in ss[|ss| - 1].files
              && !SeenWhole(ss[|ss| - 1], NAME, maxBytes)
  {
    UploadSteps(hash, a, b, maxBytes);
    UploadOutcome(a, b, maxBytes);
    var ss := seq(7, k requires 0 <= k < 7 => UploadState(a, b, k));
    assert ss[0] == INITIAL;
    hide Step, UploadState, SeenWhole;
    assert Trace(ss, maxBytes, hash);
  }

  const T3 := TempName(T1, "1")

  function Other(b: string, copied: nat, phase: Phase): Writer {
    Writer(T1, b, T3, copied, phase)
  }

  /** Begin 1, begin 2 under the first's temporary name, copy 2, rename 2, copy 1, rename 1. */
  function UploadState(a: string, b: string, k: nat): Sys {
    if k == 0 then INITIAL
    else if k == 1 then Dir(map[T1 := File(1)], map[1 := Empty(a, T1)])
    else if k == 2 then Dir(map[T1 := File(1), T3 := File(2)], map[1 := Empty(a, T1), 2 := Other(b, 0, Copying)])
    else if k == 3 then Dir(map[T1 := File(1), T3 := File(2)], map[1 := Empty(a, T1), 2 := Other(b, |b|, Copying)])
    else if k == 4 then Dir(map[T1 := File(2)], map[1 := Empty(a, T1), 2 := Other(b, |b|, Published)])
    else if k == 5 then Dir(map[T1 := File(2)], map[1 := Filled(a, T1, Copying), 2 := Other(b, |b|, Published)])
    else Dir(map[NAME := File(2)], map[1 := Filled(a, T1, Published), 2 := Other(b, |b|, Published)])
  }

  lemma UploadNames()
    ensures ValidName(T1) && T1 != DOT && T3 != T1 && T3 != NAME
  {
    RaceNames();
    TempIsValidNameIff(NAME, "1");
    assert |T3| > |T1|;
    assert |T1| > |NAME|;
  }

  lemma UploadOutcome(a: string, b: string, maxBytes: int)
    requires a != b
    ensures NAME in UploadState(a, b, 6).files && !SeenWhole(UploadState(a, b, 6), NAME, maxBytes)
  {
    RaceNames();
    hide HashName, TempName, ValidName, Plain;
    assert b[..|b|] == b;
  }

  lemma UploadBegins(a: string, b: string)
    ensures Begin(UploadState(a, b, 0), UploadState(a, b, 1), 1, NAME, a, "1")
    ensures Begin(UploadState(a, b, 1), UploadState(a, b, 2), 2, T1, b, "1")
  {
    RaceNames();
    UploadNames();
    hide HashName, TempName, ValidName, Plain;
  }

  lemma UploadRest(a: string, b: string, maxBytes: int)
    requires 0 < |a| <= maxBytes && 0 < |b| <= maxBytes
    ensures CopySome(UploadState(a, b, 2), UploadState(a, b, 3), 2, |b|)
    ensures Publish(UploadState(a, b, 3), UploadState(a, b, 4), 2, maxBytes)
    ensures CopySome(UploadState(a, b, 4), UploadState(a, b, 5), 1, |a|)
    ensures Publish(UploadState(a, b, 5), UploadState(a, b, 6), 1, maxBytes)
  {
    RaceNames();
    UploadNames();
    hide HashName, TempName, ValidName, Plain;
  }

  lemma UploadSteps(hash: string -> string, a: string, b: string, maxBytes: int)
    requires 0 < |a| <= maxBytes && 0 < |b| <= maxBytes
    ensures forall k :: 0 <= k < 6 ==> Step(UploadState(a, b, k), UploadState(a, b, k + 1), maxBytes, hash)
  {
    UploadBegins(a, b);
    UploadRest(a, b, maxBytes);
    hide UploadState, Begin, CopySome, Publish;
    forall k | 0 <= k < 6
      ensures Step(UploadState(a, b, k), UploadState(a, b, k + 1), maxBytes, hash)
    {
      var s, t := UploadState(a, b, k), UploadState(a, b, k + 1);
      if k == 0 {
        assert Begin(s, t, 1, NAME, a, "1");
      } else if k == 1 {
        assert Begin(s, t, 2, T1, b, "1");
      } else if k == 2 {
        assert CopySome(s, t, 2, |b|);
      } else if k == 3 {
        assert Publish(s, t, 2, maxBytes);
      } else if k == 4 {
        assert CopySome(s, t, 1, |a|);
      } else {
        assert Publish(s, t, 1, maxBytes);
      }
    }
  }
}
