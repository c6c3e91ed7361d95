/** The blob store, one operation at a time: bounded copy, temporary file, rename, sidecar. */
module Blobs {
  import opened Wrappers
  import opened Text
  import opened Decimal
  import opened BlobNames

  const BUFFER_BYTES := 256 * 1024
  const MAX_INT64 := 0x7FFF_FFFF_FFFF_FFFF

  datatype Error =
    | InvalidName | TooLarge | NotFound | SizeMismatch | LengthMismatch | ReadFailed | BadSize | NoSource | IoFailed

  datatype Info = Info(name: string, bytes: int, sha256: string)

  /** File names and contents. */
  type Files = map<string, string>

  /** The blob directory, which can itself be removed. */
  datatype Dir = Absent | Dir(files: Files)

  /** Two's complement addition of one on 64 bits. */
  function AddOne(n: int): int {
    if n == MAX_INT64 then -MAX_INT64 - 1 else n + 1
  }

  // ----- reading

  function Flat(pieces: seq<string>): string {
    if pieces == [] then "" else pieces[0] + Flat(pieces[1..])
  }

  datatype Read = Data(bytes: string) | Eof | Failed

  /** A reader that delivers its bytes in pieces of its own choosing, and then ends or fails. */
  class Source {
    var pieces: seq<string>
    const fails: bool

    constructor (pieces: seq<string>, fails: bool)
      ensures this.pieces == pieces && this.fails == fails
    {
      this.pieces := pieces;
      this.fails := fails;
    }

    function Left(): string
      reads this
    {
      Flat(pieces)
    }

    /** At most n bytes of what is left; an end or a failure only when nothing is. */
    method Next(n: nat) returns (r: Read)
      requires n > 0
      modifies this
      ensures match r
        case Data(bytes) =>
          && |bytes| <= n && old(Left()) == bytes + Left()
          && (bytes == "" ==> |pieces| < |old(pieces)|)
        case Eof => old(Left()) == "" && pieces == old(pieces) && !fails
        case Failed => old(Left()) == "" && pieces == old(pieces) && fails
    {
      if |pieces| == 0 {
        return if fails then Failed else Eof;
      }
      var first := pieces[0];
      if |first| <= n {
        pieces := pieces[1..];
        return Data(first);
      }
      var rest := pieces[1..];
      pieces := [first[n..]] + rest;
      assert pieces[1..] == rest;
      assert first == first[..n] + first[n..];
      assert first[..n] + (first[n..] + Flat(rest)) == first + Flat(rest);
      return Data(first[..n]);
    }
  }

  function Min(a: int, b: int): int {
    if a < b then a else b
  }

  /** How many bytes of a body get past a limit; a limit that is not positive lets none through. */
  function Taken(body: string, limit: int): (n: nat)
    ensures n <= |body|
  {
    if limit <= 0 then 0 else Min(|body|, limit)
  }

  /** The copy meets the reader's failure only if the limit has not ended it first. */
  predicate CopyEnds(body: string, fails: bool, limit: int) {
    fails ==> limit <= |body|
  }

  /**
   The buffered copy loop over a limited reader. For every way the body is cut into pieces it yields the same bytes,
   takes no more than the limit from the source, and comes to an end.
   */
  method CopyLimited(src: Source, limit: int) returns (copied: string, ok: bool)
    modifies src
    ensures var body := old(src.Left());
      && copied == body[..Taken(body, limit)]
      && src.Left() == body[Taken(body, limit)..]
      && (ok <==> CopyEnds(body, src.fails, if limit <= 0 then 0 else limit))
  {
    ghost var body := src.Left();
    copied, ok := "", true;
    var remaining := limit;
    while remaining > 0
      invariant body == copied + src.Left()
      invariant limit > 0 ==> remaining >= 0 && |copied| + remaining == limit
      invariant limit <= 0 ==> remaining <= 0 && copied == ""
      invariant ok
      decreases remaining, |src.Left()| + |src.pieces|
    {
      var room := if remaining < BUFFER_BYTES then remaining else BUFFER_BYTES;
      var r := src.Next(room);
      match r {
        case Data(bytes) =>
          copied := copied + bytes;
          remaining := remaining - |bytes|;
        case Eof =>
          break;
        case Failed =>
          ok := false;
          break;
      }
    }
    assert copied == body[..|copied|] && src.Left() == body[|copied|..];
  }

  // ----- what an operation does to the directory

  function WithBlob(files: Files, hash: string -> string, name: string, data: string): Files {
    files[name := data][HashName(name) := hash(data) + "\n"]
  }

  function Without(files: Files, name: string): Files {
    files - {name, HashName(name)}
  }

  /** What the file system refuses of one write: the rename, the opening of the sidecar, or the rest of its line. */
  datatype Fault = NoFault | NotRenamed | SidecarShut | SidecarTorn(written: nat)

  /** The first characters of a sidecar's line; what is written before a failure lacks at least the newline. */
  function TornLine(sum: string, written: nat): string {
    sum[..Min(written, |sum|)]
  }

  /** What writeFrom makes of the bytes it copied. The rename onto the directory itself is refused by the system. */
  function Written(
    dir: Dir, hash: string -> string, maxBytes: int, name: string, data: string, ok: bool, expected: int, exact: bool,
    fault: Fault := NoFault)
    : (Dir, Result<Info, Error>)
  {
    if dir == Absent then (dir, Err(IoFailed))
    else if !ok then (dir, Err(ReadFailed))
    else if |data| > maxBytes then (dir, Err(TooLarge))
    else if exact && |data| != expected then (dir, Err(SizeMismatch))
    else if name == DOT || fault == NotRenamed then (dir, Err(IoFailed))
    else if fault == SidecarShut then (Dir(dir.files[name := data]), Err(IoFailed))
    else if fault.SidecarTorn? then
      (Dir(dir.files[name := data][HashName(name) := TornLine(hash(data), fault.written)]), Err(IoFailed))
    else (Dir(WithBlob(dir.files, hash, name, data)), Ok(Info(name, |data|, hash(data))))
  }

  function PutLimit(maxBytes: int, expected: int): int {
    AddOne(if expected > 0 then expected else maxBytes)
  }

  function PutResult(
    dir: Dir, hash: string -> string, maxBytes: int, name: string, body: string, fails: bool, expected: int,
    fault: Fault := NoFault)
    : (Dir, Result<Info, Error>)
  {
    if !ValidName(name) then (dir, Err(InvalidName))
    else if expected > maxBytes then (dir, Err(TooLarge))
    else
      var limit := PutLimit(maxBytes, expected);
      var data := body[..Taken(body, limit)];
      var ok := CopyEnds(body, fails, if limit <= 0 then 0 else limit);
      var (after, r) := Written(dir, hash, maxBytes, name, data, ok, expected, false, fault);
      if r.Err? then (after, r)
      else if expected > 0 && r.value.bytes != expected then (DeleteResult(after, name).0, Err(LengthMismatch))
      else (after, r)
  }

  function GenerateResult(
    dir: Dir, hash: string -> string, maxBytes: int, name: string, random: string, fails: bool, size: int,
    fault: Fault := NoFault)
    : (Dir, Result<Info, Error>)
  {
    if !ValidName(name) then (dir, Err(InvalidName))
    else if size <= 0 then (dir, Err(BadSize))
    else if size > maxBytes then (dir, Err(TooLarge))
    else
      var data := random[..Taken(random, size)];
      Written(dir, hash, maxBytes, name, data, CopyEnds(random, fails, size), size, true, fault)
  }

  /** Removing the directory itself works only while it is empty. */
  function DeleteResult(dir: Dir, name: string): (Dir, Result<(), Error>) {
    if !ValidName(name) then (dir, Err(InvalidName))
    else if dir == Absent then (dir, Err(NotFound))
    else if name != DOT then
      (Dir(Without(dir.files, name)), if name in dir.files then Ok(()) else Err(NotFound))
    else if dir.files == map[] then (Absent, Ok(()))
    else (Dir(dir.files - {HashName(DOT)}), Err(IoFailed))
  }

  /** What an open handle is good for: the directory itself can be opened but not read. */
  datatype Opened = Blob(data: string, info: Info) | DirectoryHandle(sha256: string)

  function OpenResult(dir: Dir, name: string): Result<Opened, Error> {
    if !ValidName(name) then Err(InvalidName)
    else if dir == Absent then Err(NotFound)
    else if name == DOT then Ok(DirectoryHandle(SidecarText(dir.files, DOT)))
    else if name !in dir.files then Err(NotFound)
    else Ok(Blob(dir.files[name], Info(name, |dir.files[name]|, SidecarText(dir.files, name))))
  }

  /** The hash a sidecar shows; a missing one shows nothing. */
  function SidecarText(files: Files, name: string): string {
    if HashName(name) in files then TrimSpaces(files[HashName(name)]) else ""
  }

  function Listed(files: Files, entries: seq<string>): seq<Info> {
    if entries == [] then []
    else
      var last := entries[|entries| - 1];
      Listed(files, entries[..|entries| - 1])
      + if IsSidecar(last) || !ValidName(last) || last !in files then []
        else [Info(last, |files[last]|, SidecarText(files, last))]
  }

  /** A directory listing: every file, each once. */
  ghost predicate Enumerates(entries: seq<string>, files: Files) {
    && (forall f :: f in entries <==> f in files)
    && forall i, j :: 0 <= i < j < |entries| ==> entries[i] != entries[j]
  }

  /** Filling a new temporary file and removing it again leaves the directory as it was. */
  lemma TempGone(files: Files, temp: string, data: string)
    requires temp !in files
    ensures files[temp := ""][temp := data] - {temp} == files
  {
  }

  lemma TempIsAside(name: string, digits: string)
    requires digits != "" && AllDigits(digits)
    ensures TempName(name, digits) != name && TempName(name, digits) != HashName(name)
  {
    assert |TempName(name, digits)| > |name|;
    TempIsNoSidecar(name, digits);
    BaseOfHashName(name);
  }

  class Store {
    const maxBytes: int
    const hash: string -> string
    var dir: Dir

    constructor (maxBytes: int, hash: string -> string)
      ensures this.maxBytes == maxBytes && this.hash == hash && dir == Dir(map[])
    {
      this.maxBytes := maxBytes;
      this.hash := hash;
      this.dir := Dir(map[]);
    }

    /** The name that CreateTemp chooses with these digits is free. */
    predicate Free(name: string, digits: string)
      reads this
    {
      digits != "" && AllDigits(digits) && (dir.Dir? ==> TempName(name, digits) !in dir.files)
    }

    method WriteFrom(
      name: string, src: Source, limit: int, expected: int, exact: bool, digits: string, fault: Fault)
      returns (r: Result<Info, Error>)
      requires Free(name, digits)
      modifies this, src
      ensures var body := old(src.Left());
        (dir, r) == Written(old(dir), hash, maxBytes, name, body[..Taken(body, limit)],
                            CopyEnds(body, src.fails, if limit <= 0 then 0 else limit), expected, exact, fault)
      ensures src.Left() == if old(dir) == Absent then old(src.Left())
                            else old(src.Left())[Taken(old(src.Left()), limit)..]
    {
      hide CopyEnds, HashName, Taken, TempName;
      if dir == Absent {
        return Err(IoFailed);
      }
      ghost var before := dir.files;
      var temp := TempName(name, digits);
      TempIsAside(name, digits);
      dir := Dir(dir.files[temp := ""]);
      var data, ok := CopyLimited(src, limit);
      dir := Dir(dir.files[temp := data]);
      TempGone(before, temp, data);
      if !ok || |data| > maxBytes || (exact && |data| != expected) || name == DOT || fault == NotRenamed {
        dir := Dir(dir.files - {temp});
        return Err(if !ok then ReadFailed else if |data| > maxBytes then TooLarge
                   else if exact && |data| != expected then SizeMismatch else IoFailed);
      }
      dir := Dir((dir.files - {temp})[name := data]);
      var sum := hash(data);
      if fault == SidecarShut {
        return Err(IoFailed);
      }
      if fault.SidecarTorn? {
        dir := Dir(dir.files[HashName(name) := TornLine(sum, fault.written)]);
        return Err(IoFailed);
      }
      dir := Dir(dir.files[HashName(name) := sum + "\n"]);
      r := Ok(Info(name, |data|, sum));
    }

    method Put(name: string, src: Source, expected: int, digits: string, fault: Fault)
      returns (r: Result<Info, Error>)
      requires Free(name, digits)
      modifies this, src
      ensures (dir, r) == PutResult(old(dir), hash, maxBytes, name, old(src.Left()), src.fails, expected, fault)
      ensures |old(src.Left())| - |src.Left()|
           <= if PutLimit(maxBytes, expected) <= 0 then 0 else PutLimit(maxBytes, expected)
    {
      hide CopyEnds, ValidName, Without, WithBlob;
      if !ValidName(name) {
        return Err(InvalidName);
      }
      if expected > maxBytes {
        return Err(TooLarge);
      }
      var limit := maxBytes;
      if expected > 0 {
        limit := expected;
      }
      r := WriteFrom(name, src, AddOne(limit), expected, false, digits, fault);
      if r.Err? {
        return;
      }
      if r.value.bytes > maxBytes {
        // Never reached: WriteFrom has refused such a body already.
        assert false;
        return Err(TooLarge);
      }
      if expected > 0 && r.value.bytes != expected {
        var removed := Delete(name);
        return Err(LengthMismatch);
      }
    }

    method Generate(name: string, random: Source?, size: int, digits: string, fault: Fault)
      returns (r: Result<Info, Error>)
      requires Free(name, digits)
      modifies this, random
      ensures random != null ==>
                (dir, r) == GenerateResult(old(dir), hash, maxBytes, name, old(random.Left()), random.fails, size,
                                           fault)
      ensures random == null ==> dir == old(dir) && r.Err?
    {
      hide CopyEnds, ValidName, WithBlob;
      if !ValidName(name) {
        return Err(InvalidName);
      }
      if size <= 0 {
        return Err(BadSize);
      }
      if size > maxBytes {
        return Err(TooLarge);
      }
      if random == null {
        return Err(NoSource);
      }
      r := WriteFrom(name, random, size, size, true, digits, fault);
    }

    /** Two removals; what the first one says is the answer. */
    method Delete(name: string) returns (r: Result<(), Error>)
      modifies this
      ensures (dir, r) == DeleteResult(old(dir), name)
    {
      hide ValidName, HashName;
      if !ValidName(name) {
        return Err(InvalidName);
      }
      ghost var before := dir;
      r := RemoveEntry(name);
      if dir.Dir? {
        dir := Dir(dir.files - {HashName(name)});
        assert before.Dir? && (name != DOT ==> dir.files == Without(before.files, name));
      }
    }

    /** The system's removal of a file, or of the directory itself if it is empty. */
    method RemoveEntry(name: string) returns (r: Result<(), Error>)
      modifies this
      ensures r == if old(dir) == Absent || (name != DOT && name !in old(dir).files) then Err(NotFound)
                   else if name == DOT && old(dir).files != map[] then Err(IoFailed)
                   else Ok(())
      ensures dir == if r.Err? then old(dir) else if name == DOT then Absent else Dir(old(dir).files - {name})
    {
      if dir == Absent || (name != DOT && name !in dir.files) {
        return Err(NotFound);
      }
      if name == DOT && dir.files != map[] {
        return Err(IoFailed);
      }
      dir := if name == DOT then Absent else Dir(dir.files - {name});
      r := Ok(());
    }

    method Open(name: string) returns (r: Result<Opened, Error>)
      ensures r == OpenResult(dir, name)
    {
      hide ValidName;
      if !ValidName(name) {
        return Err(InvalidName);
      }
      if dir == Absent || (name != DOT && name !in dir.files) {
        return Err(NotFound);
      }
      if name == DOT {
        return Ok(DirectoryHandle(SidecarText(dir.files, name)));
      }
      r := Ok(Blob(dir.files[name], Info(name, |dir.files[name]|, SidecarText(dir.files, name))));
    }

    method List(entries: seq<string>) returns (r: Result<seq<Info>, Error>)
      requires dir.Dir? ==> Enumerates(entries, dir.files)
      ensures r == if dir == Absent then Err(IoFailed) else Ok(Listed(dir.files, entries))
    {
      hide ValidName, IsSidecar, SidecarText;
      if dir == Absent {
        return Err(IoFailed);
      }
      var files, out: seq<Info> := dir.files, [];
      var i := 0;
      while i < |entries|
        invariant 0 <= i <= |entries|
        invariant out == Listed(files, entries[..i])
      {
        var entry := entries[i];
        assert entries[..i + 1][..i] == entries[..i];
        if !IsSidecar(entry) && ValidName(entry) && entry in files {
          out := out + [Info(entry, |files[entry]|, SidecarText(files, entry))];
        }
        i := i + 1;
      }
      assert entries[..i] == entries;
      r := Ok(out);
    }
  }

  // ----- decisions

  /**
   For every name and every body that ends cleanly, and a size limit below the largest 64-bit integer: Put accepts
   exactly the valid names other than that of the directory, with bodies within the limit whose length is the announced
   one (if one was announced), and stores exactly the body. A body that is too large leaves the directory as it was; one
   of the wrong length leaves the name absent.
   */
  lemma PutDecision(files: Files, hash: string -> string, maxBytes: int, name: string, body: string, expected: int)
    requires 0 < maxBytes < MAX_INT64
    ensures var (after, r) := PutResult(Dir(files), hash, maxBytes, name, body, false, expected);
      && (r.Ok? <==>
            ValidName(name) && name != DOT && |body| <= maxBytes && (expected <= 0 || |body| == expected))
      && (r.Ok? ==> after == Dir(WithBlob(files, hash, name, body)) && r.value == Info(name, |body|, hash(body)))
      && (r == Err(TooLarge) <==>
            && ValidName(name)
            && (expected > maxBytes || (|body| > maxBytes && (expected <= 0 || expected == maxBytes))))
      && (r == Err(LengthMismatch) ==> after == Dir(Without(files, name)) && name != DOT)
      && (r.Err? && r != Err(LengthMismatch) ==> after == Dir(files))
      && (r.Err? ==> r.error in {InvalidName, TooLarge, IoFailed, LengthMismatch})
      && (r == Err(IoFailed) ==> name == DOT)
      && (r == Err(InvalidName) <==> !ValidName(name))
  {
    hide ValidName;
    var limit := PutLimit(maxBytes, expected);
    assert body[..|body|] == body;
    var data := body[..Taken(body, limit)];
    if expected <= maxBytes && |data| <= maxBytes {
      assert Without(WithBlob(files, hash, name, data), name) == Without(files, name);
    }
  }

  /**
   At the largest 64-bit limit the addition of one wraps around and the reader lets nothing through: an accepted Put
   then stores an empty blob. So what an accepted Put stored is the body exactly when the body is empty, its length was
   announced, or the limit is smaller.
   */
  lemma PutStoresBodyIff(dir: Dir, hash: string -> string, maxBytes: int, name: string, body: string, expected: int)
    requires 0 < maxBytes <= MAX_INT64
    requires PutResult(dir, hash, maxBytes, name, body, false, expected).1.Ok?
    ensures PutResult(dir, hash, maxBytes, name, body, false, expected).0.Dir?
    ensures var files := PutResult(dir, hash, maxBytes, name, body, false, expected).0.files;
      && name in files
      && (files[name] == body <==> body == "" || expected > 0 || maxBytes < MAX_INT64)
  {
    hide ValidName;
    assert body[..|body|] == body;
    assert name != HashName(name) by { assert |HashName(name)| == |name| + 7; }
  }

  /** This does happen: at that limit every body of unknown length is accepted, and an empty blob stored. */
  lemma LargestLimitStoresEmpty(files: Files, hash: string -> string, name: string, body: string)
    requires ValidName(name) && name != DOT
    ensures PutResult(Dir(files), hash, MAX_INT64, name, body, false, 0)
         == (Dir(WithBlob(files, hash, name, "")), Ok(Info(name, 0, hash(""))))
  {
    hide ValidName;
  }

  /** A failing reader never publishes anything, whatever was copied before. */
  lemma FailedReadChangesNothing(
    dir: Dir, hash: string -> string, maxBytes: int, name: string, body: string, expected: int)
    requires 0 < maxBytes < MAX_INT64 && |body| < PutLimit(maxBytes, expected)
    ensures var (after, r) := PutResult(dir, hash, maxBytes, name, body, true, expected); r.Err? && after == dir
  {
    hide ValidName;
  }

  /** And a reader that would fail only behind the limit is one that ends cleanly, as far as the store can tell. */
  lemma LateFailureUnnoticed(
    dir: Dir, hash: string -> string, maxBytes: int, name: string, body: string, expected: int)
    requires 0 < maxBytes < MAX_INT64 && |body| >= PutLimit(maxBytes, expected)
    ensures PutResult(dir, hash, maxBytes, name, body, true, expected)
         == PutResult(dir, hash, maxBytes, name, body, false, expected)
  {
    hide ValidName;
  }

  /**
   For every random source: generation succeeds exactly when the name is valid and not the directory's, the size is
   acceptable and the source holds that many bytes, and stores exactly so many of them, from the front; otherwise the
   directory is as it was.
   */
  lemma GenerateDecision(
    files: Files, hash: string -> string, maxBytes: int, name: string, random: string, fails: bool, size: int)
    ensures var (after, r) := GenerateResult(Dir(files), hash, maxBytes, name, random, fails, size);
      && (r.Ok? <==> ValidName(name) && name != DOT && 0 < size <= maxBytes && size <= |random|)
      && (r.Ok? ==> after == Dir(WithBlob(files, hash, name, random[..size]))
                    && r.value == Info(name, size, hash(random[..size])))
      && (r.Err? ==> after == Dir(files))
      && (r == Err(SizeMismatch) <==> ValidName(name) && 0 < size <= maxBytes && size > |random| && !fails)
  {
    hide ValidName;
  }

  /**
   When the file system refuses part of the write, the upload is never accepted; and it is undone exactly if nothing had
   been renamed. If only the sidecar fails, a body within the limit stays in place although an error is returned, and
   even one whose length is not the announced one.
   */
  lemma FaultDecision(
    files: Files, hash: string -> string, maxBytes: int, name: string, body: string, expected: int, fault: Fault)
    requires 0 < maxBytes < MAX_INT64 && fault != NoFault
    ensures var (after, r) := PutResult(Dir(files), hash, maxBytes, name, body, false, expected, fault);
      && r.Err? && after.Dir?
      && (after.files == files
          || (name in after.files && after.files[name] == body[..Taken(body, PutLimit(maxBytes, expected))]))
      && (fault == NotRenamed || !ValidName(name) || name == DOT ==> after.files == files)
      && (fault != NotRenamed && ValidName(name) && name != DOT && expected <= maxBytes
          && |body[..Taken(body, PutLimit(maxBytes, expected))]| <= maxBytes ==>
            && r == Err(IoFailed) && name in after.files
            && after.files[name] == body[..Taken(body, PutLimit(maxBytes, expected))]
            && (fault == SidecarShut ==> after.files == files[name := after.files[name]])
            && (fault.SidecarTorn? ==>
                  var sum := hash(after.files[name]);
                  && HashName(name) in after.files && after.files[HashName(name)] != sum + "\n"
                  && (fault.written <= |sum| ==> after.files[HashName(name)] == sum[..fault.written])))
  {
    hide ValidName;
    assert |HashName(name)| > |name|;
    hide HashName;
    var data := body[..Taken(body, PutLimit(maxBytes, expected))];
    assert fault.SidecarTorn? ==> |TornLine(hash(data), fault.written)| < |hash(data) + "\n"|;
  }

  /**
   The name of the directory passes validation. Under it nothing can be stored, an open succeeds without any blob, and
   a deletion removes the directory exactly when it is empty; after that every upload and generation fails.
   */
  lemma DotIsTheDirectory(
    files: Files, hash: string -> string, maxBytes: int, name: string, body: string, fails: bool, size: int)
    ensures ValidName(DOT)
    ensures PutResult(Dir(files), hash, maxBytes, DOT, body, fails, size).1.Err?
    ensures PutResult(Dir(files), hash, maxBytes, DOT, body, fails, size).0 == Dir(files)
    ensures GenerateResult(Dir(files), hash, maxBytes, DOT, body, fails, size).1.Err?
    ensures GenerateResult(Dir(files), hash, maxBytes, DOT, body, fails, size).0 == Dir(files)
    ensures OpenResult(Dir(files), DOT).Ok? && OpenResult(Dir(files), DOT).value.DirectoryHandle?
    ensures DeleteResult(Dir(files), name).0 == Absent <==> name == DOT && files == map[]
    ensures DeleteResult(Dir(files), DOT).1.Ok? <==> files == map[]
    ensures PutResult(Absent, hash, maxBytes, name, body, fails, size).0 == Absent
    ensures PutResult(Absent, hash, maxBytes, name, body, fails, size).1.Err?
    ensures GenerateResult(Absent, hash, maxBytes, name, body, fails, size).0 == Absent
    ensures GenerateResult(Absent, hash, maxBytes, name, body, fails, size).1.Err?
  {
    assert !HasDots(DOT) && ValidName(DOT);
    hide ValidName, CopyEnds, Taken;
  }

  /** For any other valid name the answer to a deletion is whether there was a blob to be opened. */
  lemma DeleteAnswers(dir: Dir, name: string)
    requires ValidName(name) && name != DOT
    ensures DeleteResult(dir, name).1 == Ok(()) <==> OpenResult(dir, name).Ok?
    ensures DeleteResult(dir, name).1 == Err(NotFound) <==> OpenResult(dir, name) == Err(NotFound)
    ensures DeleteResult(dir, name).1 in {Ok(()), Err(NotFound)}
    ensures dir.Dir? ==> (DeleteResult(dir, name).1 == Ok(()) <==> name in dir.files)
  {
    hide ValidName;
  }

  /** So after an accepted upload a first deletion succeeds and a second one finds nothing. */
  lemma DeleteTwice(dir: Dir, hash: string -> string, maxBytes: int, name: string, body: string, expected: int)
    requires PutResult(dir, hash, maxBytes, name, body, false, expected).1.Ok?
    ensures var stored := PutResult(dir, hash, maxBytes, name, body, false, expected).0;
      && DeleteResult(stored, name).1 == Ok(())
      && DeleteResult(DeleteResult(stored, name).0, name).1 == Err(NotFound)
  {
    hide ValidName, CopyEnds, Taken;
  }

  /** What is stored under any other name can be opened, with its size and hash, until it is deleted. */
  lemma OpenAfterPut(files: Files, hash: string -> string, name: string, data: string)
    requires ValidName(name) && name != DOT && EndsTrimmed(hash(data))
    ensures OpenResult(Dir(WithBlob(files, hash, name, data)), name)
         == Ok(Blob(data, Info(name, |data|, hash(data))))
    ensures OpenResult(DeleteResult(Dir(files), name).0, name) == Err(NotFound)
    ensures OpenResult(Dir(files), name) == Err(NotFound) <==> name !in files
    ensures name in files && HashName(name) !in files ==>
              OpenResult(Dir(files), name) == Ok(Blob(files[name], Info(name, |files[name]|, "")))
  {
    hide ValidName;
    assert |HashName(name)| > |name|;
    TrimLine(hash(data));
    hide HashName;
  }

  // ----- the directory is the blobs and their sidecars

  /** The directory that holds exactly the given blobs, each with its sidecar. */
  function Image(blobs: Files, hash: string -> string): Files {
    map f | f in blobs.Keys + (set n | n in blobs :: HashName(n)) ::
      if f in blobs then blobs[f] else if Base(f) in blobs then hash(blobs[Base(f)]) + "\n" else ""
  }

  ghost predicate BlobNamesOnly(blobs: Files) {
    forall n :: n in blobs ==> ValidName(n) && !IsSidecar(n) && n != DOT
  }

  predicate InImage(blobs: Files, f: string) {
    f in blobs || (IsSidecar(f) && Base(f) in blobs)
  }

  lemma ImageContents(blobs: Files, hash: string -> string, f: string)
    requires BlobNamesOnly(blobs)
    ensures f in Image(blobs, hash) <==> InImage(blobs, f)
    ensures f in blobs ==> Image(blobs, hash)[f] == blobs[f] && !IsSidecar(f)
    ensures IsSidecar(f) && Base(f) in blobs ==> Image(blobs, hash)[f] == hash(blobs[Base(f)]) + "\n"
  {
    hide ValidName, IsSidecar, HashName, Base;
    if IsSidecar(f) {
      HashNameOfBase(f);
    }
    if n :| n in blobs && f == HashName(n) {
      BaseOfHashName(n);
    }
  }

  lemma WithBlobImage(blobs: Files, hash: string -> string, name: string, data: string)
    requires BlobNamesOnly(blobs) && ValidName(name) && !IsSidecar(name) && name != DOT
    ensures BlobNamesOnly(blobs[name := data])
    ensures WithBlob(Image(blobs, hash), hash, name, data) == Image(blobs[name := data], hash)
  {
    hide ValidName, IsSidecar, Image, HashName, Base;
    var more := blobs[name := data];
    assert BlobNamesOnly(more);
    BaseOfHashName(name);
    var a, b := WithBlob(Image(blobs, hash), hash, name, data), Image(more, hash);
    forall f: string
      ensures f in a <==> f in b
      ensures f in a ==> a[f] == b[f]
    {
      ImageContents(blobs, hash, f);
      ImageContents(more, hash, f);
      if IsSidecar(f) {
        HashNameOfBase(f);
      }
    }
  }

  lemma WithoutImage(blobs: Files, hash: string -> string, name: string)
    requires BlobNamesOnly(blobs) && !IsSidecar(name)
    ensures BlobNamesOnly(blobs - {name})
    ensures Without(Image(blobs, hash), name) == Image(blobs - {name}, hash)
  {
    hide ValidName, IsSidecar, Image, HashName, Base;
    var less := blobs - {name};
    assert BlobNamesOnly(less);
    BaseOfHashName(name);
    var a, b := Without(Image(blobs, hash), name), Image(less, hash);
    forall f: string
      ensures f in a <==> f in b
      ensures f in a ==> a[f] == b[f]
    {
      ImageContents(blobs, hash, f);
      ImageContents(less, hash, f);
      if IsSidecar(f) {
        HashNameOfBase(f);
      }
    }
  }

  /** An operation of a sequential history. Reads leave the directory alone. */
  datatype Op =
    | PutOp(name: string, body: string, fails: bool, expected: int)
    | GenerateOp(name: string, random: string, randomFails: bool, size: int)
    | DeleteOp(name: string)

  function Apply(dir: Dir, hash: string -> string, maxBytes: int, op: Op): Dir {
    match op
    case PutOp(name, body, fails, expected) => PutResult(dir, hash, maxBytes, name, body, fails, expected).0
    case GenerateOp(name, random, fails, size) => GenerateResult(dir, hash, maxBytes, name, random, fails, size).0
    case DeleteOp(name) => DeleteResult(dir, name).0
  }

  function ApplyAll(hash: string -> string, maxBytes: int, ops: seq<Op>): Dir {
    if ops == [] then Dir(map[])
    else Apply(ApplyAll(hash, maxBytes, ops[..|ops| - 1]), hash, maxBytes, ops[|ops| - 1])
  }

  /** What an operation does to the blob it names, while the directory is there. */
  datatype Change = Kept | Removed | Stored(data: string)

  function ChangeOf(hash: string -> string, maxBytes: int, op: Op): Change {
    match op
    case PutOp(name, body, fails, expected) =>
      (match PutResult(Dir(map[]), hash, maxBytes, name, body, fails, expected).1
       case Ok(info) => Stored(body[..Taken(body, PutLimit(maxBytes, expected))])
       case Err(LengthMismatch) => Removed
       case Err(_) => Kept)
    case GenerateOp(name, random, fails, size) =>
      if GenerateResult(Dir(map[]), hash, maxBytes, name, random, fails, size).1.Ok?
      then Stored(random[..Taken(random, size)])
      else Kept
    case DeleteOp(name) => if ValidName(name) && name != DOT then Removed else Kept
  }

  /** The same operations on the abstract store, which knows nothing of sidecars and temporary files. */
  function Effect(blobs: Files, hash: string -> string, maxBytes: int, op: Op): Files {
    match ChangeOf(hash, maxBytes, op)
    case Kept => blobs
    case Removed => blobs - {op.name}
    case Stored(data) => blobs[op.name := data]
  }

  function Effects(hash: string -> string, maxBytes: int, ops: seq<Op>): Files {
    if ops == [] then map[]
    else Effect(Effects(hash, maxBytes, ops[..|ops| - 1]), hash, maxBytes, ops[|ops| - 1])
  }

  /** Some operation deletes the directory's own name when no blob is stored. */
  ghost predicate RemovesDirectory(hash: string -> string, maxBytes: int, ops: seq<Op>) {
    exists i :: 0 <= i < |ops| && ops[i] == DeleteOp(DOT) && Effects(hash, maxBytes, ops[..i]) == map[]
  }

  /** The change decides what the directory becomes, whatever it holds; the directory's own name changes no blob. */
  lemma ApplyIs(files: Files, hash: string -> string, maxBytes: int, op: Op)
    ensures op.name == DOT ==> ChangeOf(hash, maxBytes, op) == Kept
    ensures op != DeleteOp(DOT) ==>
              Apply(Dir(files), hash, maxBytes, op)
              == match ChangeOf(hash, maxBytes, op)
                 case Kept => Dir(files)
                 case Removed => Dir(Without(files, op.name))
                 case Stored(data) => Dir(WithBlob(files, hash, op.name, data))
    ensures ChangeOf(hash, maxBytes, op) != Kept ==> ValidName(op.name)
    ensures op == DeleteOp(DOT) ==>
              Apply(Dir(files), hash, maxBytes, op) == if files == map[] then Absent else Dir(files - {HashName(DOT)})
  {
    DotIsTheDirectory(files, hash, maxBytes, DOT, "", false, 0);
    hide ValidName, CopyEnds, Taken, WithBlob, HashName;
    if op.PutOp? {
      var data := op.body[..Taken(op.body, PutLimit(maxBytes, op.expected))];
      WithThenWithout(files, hash, op.name, data);
    }
  }

  lemma WithThenWithout(files: Files, hash: string -> string, name: string, data: string)
    ensures Without(WithBlob(files, hash, name, data), name) == Without(files, name)
  {
  }

  lemma ImageEmptyIff(blobs: Files, hash: string -> string)
    requires BlobNamesOnly(blobs)
    ensures Image(blobs, hash) == map[] <==> blobs == map[]
  {
    if n :| n in blobs {
      ImageContents(blobs, hash, n);
      assert n in Image(blobs, hash);
    }
  }

  lemma NoDotInImage(blobs: Files, hash: string -> string)
    requires BlobNamesOnly(blobs)
    ensures DOT !in blobs && HashName(DOT) !in Image(blobs, hash)
  {
    BaseOfHashName(DOT);
    ImageContents(blobs, hash, HashName(DOT));
  }

  lemma ApplyImage(blobs: Files, hash: string -> string, maxBytes: int, op: Op)
    requires BlobNamesOnly(blobs) && (IsSidecar(op.name) ==> ChangeOf(hash, maxBytes, op) == Kept)
    ensures BlobNamesOnly(Effect(blobs, hash, maxBytes, op))
    ensures Apply(Dir(Image(blobs, hash)), hash, maxBytes, op)
         == if op == DeleteOp(DOT) && blobs == map[] then Absent
            else Dir(Image(Effect(blobs, hash, maxBytes, op), hash))
  {
    hide ValidName, IsSidecar, Image, WithBlob, Without, BlobNamesOnly, Apply, ChangeOf, HashName;
    ApplyIs(Image(blobs, hash), hash, maxBytes, op);
    if op == DeleteOp(DOT) {
      NoDotInImage(blobs, hash);
      ImageEmptyIff(blobs, hash);
      assert Image(blobs, hash) - {HashName(DOT)} == Image(blobs, hash);
    } else {
      match ChangeOf(hash, maxBytes, op) {
        case Kept =>
        case Removed => WithoutImage(blobs, hash, op.name);
        case Stored(data) => WithBlobImage(blobs, hash, op.name, data);
      }
    }
  }

  /**
   After any sequence of operations that do not overlap and change nothing under names ending in .sha256, the directory
   holds exactly the blobs that the abstract store holds and one correct sidecar for each, and no other file, in
   particular no temporary one; unless the directory's own name was deleted while no blob was stored, and then it is
   gone.
   */
  lemma {:induction false} SequentialAgreement(hash: string -> string, maxBytes: int, ops: seq<Op>)
    requires forall i :: 0 <= i < |ops| && IsSidecar(ops[i].name) ==> ChangeOf(hash, maxBytes, ops[i]) == Kept
    ensures BlobNamesOnly(Effects(hash, maxBytes, ops))
    ensures ApplyAll(hash, maxBytes, ops)
         == if RemovesDirectory(hash, maxBytes, ops) then Absent else Dir(Image(Effects(hash, maxBytes, ops), hash))
    decreases |ops|
  {
    hide Apply, Effect, ChangeOf, IsSidecar, RemovesDirectory;
    NothingRemoved(hash, maxBytes);
    if ops == [] {
      assert Image(map[], hash) == map[];
    } else {
      var init, last := ops[..|ops| - 1], ops[|ops| - 1];
      SequentialAgreement(hash, maxBytes, init);
      ApplyImage(Effects(hash, maxBytes, init), hash, maxBytes, last);
      RemovesDirectoryLast(hash, maxBytes, ops);
      AbsentForGood(hash, maxBytes, last);
    }
  }

  lemma NothingRemoved(hash: string -> string, maxBytes: int)
    ensures !RemovesDirectory(hash, maxBytes, [])
  {
  }

  lemma AbsentForGood(hash: string -> string, maxBytes: int, op: Op)
    ensures Apply(Absent, hash, maxBytes, op) == Absent
  {
    hide ValidName, CopyEnds, Taken;
  }

  lemma RemovesDirectoryLast(hash: string -> string, maxBytes: int, ops: seq<Op>)
    requires ops != []
    ensures var init := ops[..|ops| - 1];
      RemovesDirectory(hash, maxBytes, ops) <==>
        || RemovesDirectory(hash, maxBytes, init)
        || (ops[|ops| - 1] == DeleteOp(DOT) && Effects(hash, maxBytes, init) == map[])
  {
    hide Effects;
    var init := ops[..|ops| - 1];
    assert forall i :: 0 <= i < |init| ==> init[..i] == ops[..i] && init[i] == ops[i];
  }

  // ----- one blob and its sidecar, whatever else happens

  /** The last thing that happened to a name. */
  function LastChange(hash: string -> string, maxBytes: int, ops: seq<Op>, name: string): Change {
    if ops == [] then Kept
    else
      var last := ops[|ops| - 1];
      if last.name == name && ChangeOf(hash, maxBytes, last) != Kept then ChangeOf(hash, maxBytes, last)
      else LastChange(hash, maxBytes, ops[..|ops| - 1], name)
  }

  /** Something has happened under the name of the sidecar since anything last happened to the blob. */
  ghost predicate SidecarTouched(hash: string -> string, maxBytes: int, ops: seq<Op>, name: string) {
    exists j :: 0 <= j < |ops| && Touches(hash, maxBytes, ops[j], HashName(name))
                && SinceThen(hash, maxBytes, ops, j, name)
  }

  predicate Touches(hash: string -> string, maxBytes: int, op: Op, name: string) {
    op.name == name && ChangeOf(hash, maxBytes, op) != Kept
  }

  predicate SinceThen(hash: string -> string, maxBytes: int, ops: seq<Op>, j: nat, name: string) {
    forall i :: j < i < |ops| ==> !Touches(hash, maxBytes, ops[i], name)
  }

  lemma TouchedSnoc(hash: string -> string, maxBytes: int, ops: seq<Op>, name: string)
    requires ops != []
    ensures var init, last := ops[..|ops| - 1], ops[|ops| - 1];
      SidecarTouched(hash, maxBytes, ops, name) <==>
        || Touches(hash, maxBytes, last, HashName(name))
        || (SidecarTouched(hash, maxBytes, init, name) && !Touches(hash, maxBytes, last, name))
  {
    hide Touches;
    var n := |ops| - 1;
    var init, last := ops[..n], ops[n];
    assert forall j :: 0 <= j < n ==>
      (SinceThen(hash, maxBytes, ops, j, name)
       <==> SinceThen(hash, maxBytes, init, j, name) && !Touches(hash, maxBytes, last, name)) by {
      assert forall i :: 0 <= i < n ==> init[i] == ops[i];
    }
    assert SinceThen(hash, maxBytes, ops, n, name);
    assert forall j :: 0 <= j < n ==> init[j] == ops[j];
  }

  /** Blob and sidecar are both there, the one the hash of the other, or both absent. */
  predicate PairRight(files: Files, hash: string -> string, name: string) {
    && (name in files <==> HashName(name) in files)
    && (name in files && HashName(name) in files ==> files[HashName(name)] == hash(files[name]) + "\n")
  }

  /** What the two files of a name are, after any operations on any names. */
  ghost predicate PairState(
    files: Files, hash: string -> string, name: string, own: Change, side: Change, touched: bool)
  {
    && (name in files <==> own.Stored?) && (own.Stored? && name in files ==> files[name] == own.data)
    && (touched ==>
          && (HashName(name) in files <==> side.Stored?)
          && (side.Stored? && HashName(name) in files ==> files[HashName(name)] == side.data))
    && (!touched ==>
          && (HashName(name) in files <==> own.Stored?)
          && (own.Stored? && HashName(name) in files ==> files[HashName(name)] == hash(own.data) + "\n"))
  }

  /** The files after a change under some name. */
  function Changed(files: Files, hash: string -> string, name: string, change: Change): Files {
    match change
    case Kept => files
    case Removed => Without(files, name)
    case Stored(data) => WithBlob(files, hash, name, data)
  }

  lemma PairOwn(
    files: Files, hash: string -> string, name: string, change: Change, own: Change, side: Change, touched: bool)
    requires PairState(files, hash, name, own, side, touched) && change != Kept
    ensures PairState(Changed(files, hash, name, change), hash, name, change, side, false)
  {
    assert |HashName(name)| > |name|;
    hide HashName;
  }

  lemma PairSide(
    files: Files, hash: string -> string, name: string, change: Change, own: Change, side: Change, touched: bool)
    requires PairState(files, hash, name, own, side, touched) && change != Kept
    ensures PairState(Changed(files, hash, HashName(name), change), hash, name, own, change, true)
  {
    assert |HashName(HashName(name))| > |HashName(name)| > |name|;
    hide HashName;
  }

  lemma PairOther(
    files: Files, hash: string -> string, name: string, other: string, change: Change, own: Change, side: Change,
    touched: bool)
    requires PairState(files, hash, name, own, side, touched) && !IsSidecar(name)
    requires other != name && other != HashName(name)
    ensures PairState(Changed(files, hash, other, change), hash, name, own, side, touched)
    ensures PairState(files - {HashName(other)}, hash, name, own, side, touched)
  {
    BaseOfHashName(name);
    BaseOfHashName(other);
    hide HashName, Base, IsSidecar;
  }

  lemma PairStep(
    files: Files, hash: string -> string, maxBytes: int, op: Op, name: string, own: Change, side: Change, touched: bool)
    requires !IsSidecar(name) && name != DOT && PairState(files, hash, name, own, side, touched)
    requires Apply(Dir(files), hash, maxBytes, op).Dir?
    ensures var change := ChangeOf(hash, maxBytes, op);
      PairState(Apply(Dir(files), hash, maxBytes, op).files, hash, name,
                if Touches(hash, maxBytes, op, name) then change else own,
                if Touches(hash, maxBytes, op, HashName(name)) then change else side,
                Touches(hash, maxBytes, op, HashName(name)) || (touched && !Touches(hash, maxBytes, op, name)))
  {
    ApplyIs(files, hash, maxBytes, op);
    assert |HashName(name)| > |name| && |HashName(name)| > |DOT|;
    hide Apply, ChangeOf, HashName, IsSidecar, PairState, WithBlob, Without;
    var change := ChangeOf(hash, maxBytes, op);
    if op.name == name && change != Kept {
      PairOwn(files, hash, name, change, own, side, touched);
    } else if op.name == HashName(name) && change != Kept {
      PairSide(files, hash, name, change, own, side, touched);
    } else if op.name != name && op.name != HashName(name) {
      PairOther(files, hash, name, op.name, change, own, side, touched);
    }
  }

  lemma {:induction false} PairAfter(hash: string -> string, maxBytes: int, ops: seq<Op>, name: string)
    requires !IsSidecar(name) && name != DOT && ApplyAll(hash, maxBytes, ops).Dir?
    ensures PairState(ApplyAll(hash, maxBytes, ops).files, hash, name, LastChange(hash, maxBytes, ops, name),
                      LastChange(hash, maxBytes, ops, HashName(name)), SidecarTouched(hash, maxBytes, ops, name))
    decreases |ops|
  {
    hide Apply, ChangeOf, IsSidecar, SidecarTouched, HashName, PairState;
    if ops == [] {
      NothingTouched(hash, maxBytes, name);
    } else {
      var init, last := ops[..|ops| - 1], ops[|ops| - 1];
      AbsentForGood(hash, maxBytes, last);
      PairAfter(hash, maxBytes, init, name);
      TouchedSnoc(hash, maxBytes, ops, name);
      PairStep(ApplyAll(hash, maxBytes, init).files, hash, maxBytes, last, name, LastChange(hash, maxBytes, init, name),
               LastChange(hash, maxBytes, init, HashName(name)), SidecarTouched(hash, maxBytes, init, name));
    }
  }

  lemma NothingTouched(hash: string -> string, maxBytes: int, name: string)
    ensures !SidecarTouched(hash, maxBytes, [], name)
    ensures PairState(map[], hash, name, Kept, Kept, false)
  {
  }

  /**
   After any operations, on any names, a blob that is no sidecar has its own correct sidecar, or neither file is there,
   if and only if nothing happened under the sidecar's name since the blob last changed, or what happened there last was
   an upload of that very sidecar, or a removal after that of the blob.
   */
  lemma SidecarAgreesIff(hash: string -> string, maxBytes: int, ops: seq<Op>, name: string)
    requires !IsSidecar(name) && name != DOT && ApplyAll(hash, maxBytes, ops).Dir?
    ensures var own := LastChange(hash, maxBytes, ops, name);
            var side := LastChange(hash, maxBytes, ops, HashName(name));
      PairRight(ApplyAll(hash, maxBytes, ops).files, hash, name) <==>
        (SidecarTouched(hash, maxBytes, ops, name) ==>
           if own.Stored? then side == Stored(hash(own.data) + "\n") else !side.Stored?)
  {
    PairAfter(hash, maxBytes, ops, name);
    hide ApplyAll, LastChange, SidecarTouched, IsSidecar, HashName;
  }

  /** In particular, operations on other names, sidecars of other blobs included, never spoil a blob's sidecar. */
  lemma OthersKeepSidecar(hash: string -> string, maxBytes: int, ops: seq<Op>, name: string)
    requires !IsSidecar(name) && name != DOT && ApplyAll(hash, maxBytes, ops).Dir?
    requires forall i :: 0 <= i < |ops| ==> ops[i].name != HashName(name)
    ensures PairRight(ApplyAll(hash, maxBytes, ops).files, hash, name)
  {
    SidecarAgreesIff(hash, maxBytes, ops, name);
    hide ApplyAll, LastChange, IsSidecar, HashName, PairRight, ChangeOf;
  }

  /** An upload under the sidecar's name overwrites the sidecar; only the very same text leaves it right. */
  lemma PutOverSidecarIff(files: Files, hash: string -> string, maxBytes: int, name: string, text: string)
    requires 0 < maxBytes < MAX_INT64 && |text| <= maxBytes
    requires name in files && PairRight(files, hash, name) && ValidName(HashName(name)) && HashName(name) != DOT
    ensures var after := PutResult(Dir(files), hash, maxBytes, HashName(name), text, false, 0).0;
      && after.Dir? && name in after.files && after.files[name] == files[name]
      && (PairRight(after.files, hash, name) <==> text == hash(files[name]) + "\n")
  {
    PutDecision(files, hash, maxBytes, HashName(name), text, 0);
    assert |HashName(HashName(name))| > |HashName(name)| > |name|;
    hide ValidName, PutResult, HashName;
  }

  // ----- what a listing shows

  /** Every hash is non-empty text without white space at its ends (hex digits, for the real one). */
  ghost predicate HexHash(hash: string -> string) {
    forall data :: EndsTrimmed(hash(data))
  }

  lemma {:induction false} ListedMeans(files: Files, entries: seq<string>)
    ensures forall info :: info in Listed(files, entries) <==>
              && info.name in entries && info.name in files && ValidName(info.name) && !IsSidecar(info.name)
              && info == Info(info.name, |files[info.name]|, SidecarText(files, info.name))
    decreases |entries|
  {
    hide ValidName, IsSidecar, SidecarText;
    if entries != [] {
      var init, last := entries[..|entries| - 1], entries[|entries| - 1];
      ListedMeans(files, init);
      assert entries == init + [last];
    }
  }

  /** What is listed stands in the order of the directory, and each file at most once. */
  lemma {:induction false} ListedInOrder(files: Files, entries: seq<string>, i: nat, j: nat)
    requires Enumerates(entries, files) && i < j < |Listed(files, entries)|
    ensures Listed(files, entries)[i].name != Listed(files, entries)[j].name
    ensures exists a, b :: 0 <= a < b < |entries|
              && Listed(files, entries)[i].name == entries[a] && Listed(files, entries)[j].name == entries[b]
  {
    OrderedEntries(files, entries, i, j);
    hide Listed;
  }

  lemma {:induction false} OrderedEntries(files: Files, entries: seq<string>, i: nat, j: nat)
    requires i < j < |Listed(files, entries)|
    ensures exists a, b :: 0 <= a < b < |entries|
              && Listed(files, entries)[i].name == entries[a] && Listed(files, entries)[j].name == entries[b]
    decreases |entries|
  {
    hide ValidName, IsSidecar, SidecarText;
    var n := |entries| - 1;
    var init, last := entries[..n], entries[n];
    var shown := Listed(files, init);
    if j < |shown| {
      OrderedEntries(files, init, i, j);
      var a, b :| 0 <= a < b < n && shown[i].name == init[a] && shown[j].name == init[b];
      assert entries[a] == init[a] && entries[b] == init[b];
    } else {
      ListedMeans(files, init);
      assert shown[i] in shown;
      var a :| 0 <= a < n && init[a] == shown[i].name;
      assert entries[a] == init[a] && Listed(files, entries)[j].name == entries[n];
    }
  }

  /** A listing of such a directory shows exactly the blobs, with their sizes and the hashes of their contents. */
  lemma ListShowsBlobs(blobs: Files, hash: string -> string, entries: seq<string>, info: Info)
    requires BlobNamesOnly(blobs) && HexHash(hash) && Enumerates(entries, Image(blobs, hash))
    ensures info in Listed(Image(blobs, hash), entries)
       <==> info.name in blobs && info == Info(info.name, |blobs[info.name]|, hash(blobs[info.name]))
  {
    hide ValidName, Image, SidecarText, IsSidecar;
    ImageContents(blobs, hash, info.name);
    ListedMeans(Image(blobs, hash), entries);
    if info.name in blobs {
      SidecarShown(blobs, hash, info.name);
    }
  }

  lemma SidecarShown(blobs: Files, hash: string -> string, name: string)
    requires BlobNamesOnly(blobs) && HexHash(hash) && name in blobs
    ensures SidecarText(Image(blobs, hash), name) == hash(blobs[name])
  {
    hide ValidName, Image, IsSidecar, HashName, Base;
    BaseOfHashName(name);
    ImageContents(blobs, hash, HashName(name));
    TrimLine(hash(blobs[name]));
  }
}
