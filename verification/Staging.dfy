/** Staged files: hidden parts in the receive directory that are linked to their
    destination once complete. Other threads and processes act between any two
    steps; the hidden parts are private to this process. */
module Staging {
  import opened Base

  /** A directory entry: a hidden part, numbered within its process, or any
      other name as its octets. */
  datatype Name = Part(process: nat, serial: nat) | Plain(octets: Bytes)

  /** Names, and the contents of the files they lead to. */
  datatype Disk = Disk(names: map<Name, nat>, content: map<nat, Bytes>, nextFile: nat)

  const NAME_MAX: nat := 255
  const STAGING_ATTEMPTS: nat := 64

  /** `.quickshare-` */
  const PART_PREFIX: Bytes := [0x2E, 0x71, 0x75, 0x69, 0x63, 0x6B, 0x73, 0x68, 0x61, 0x72, 0x65, 0x2D]

  predicate SafeOctet(b: Byte) {
    b != 0x2F && b != 0x5C && b >= 0x20 && b != 0x7F
  }

  predicate SafeFileName(name: Bytes) {
    && name != [] && |name| <= NAME_MAX
    && name != [0x2E] && name != [0x2E, 0x2E] && !(PART_PREFIX <= name)
    && forall i :: 0 <= i < |name| ==> SafeOctet(name[i])
  }

  // ------------------------------------------------------------------
  // Staged files
  // ------------------------------------------------------------------

  /** `Linked` is published but still under its hidden name too. */
  datatype Progress = Creating(attempts: nat) | Open | Linked | Closed(committed: bool)

  /** `accepted` is every byte a successful write took; `residue` counts bytes
      that a failing write left in the file without being counted. */
  datatype Staged = Staged(name: Bytes, declared: nat, progress: Progress, part: Name, file: nat,
                           written: nat, accepted: Bytes, residue: nat)
  {
    predicate Holds() { !progress.Creating? }

    /** Whether the hidden name is this file's. */
    predicate Owns() { progress.Open? || progress.Linked? || progress == Closed(false) }
  }

  datatype Published = Published(handle: nat, name: Bytes, declared: nat, file: nat, accepted: Bytes, residue: nat)

  datatype System = System(disk: Disk, process: nat, serial: nat, reserved: set<Bytes>,
                           live: map<nat, Staged>, nextHandle: nat, published: seq<Published>)

  datatype Step =
    | Stage(name: Bytes, declared: nat)
    | Attempt(handle: nat)
    | AttemptFails(handle: nat)
    | Write(handle: nat, buffer: Bytes, wrote: nat)
    | WriteAll(handle: nat, buffer: Bytes, failedAfter: Option<nat>)
    | Commit(handle: nat, ioOk: bool)
    | Sweep(handle: nat, removed: bool)
    | Drop(handle: nat, removed: bool)
    | OthersCreate(entry: Name, content: Bytes)
    | OthersRemove(entry: Name)

  function Remove<K, V>(m: map<K, V>, k: K): map<K, V> {
    map x | x in m && x != k :: m[x]
  }

  /** `stage` up to its reservation: refused when the name is unsafe, taken on
      disk, or already reserved. */
  function StageStep(s: System, name: Bytes, declared: nat): System {
    if !SafeFileName(name) || Plain(name) in s.disk.names || name in s.reserved then s
    else
      s.(reserved := s.reserved + {name}, nextHandle := s.nextHandle + 1,
         live := s.live[s.nextHandle := Staged(name, declared, Creating(0), Part(s.process, 0), 0, 0, [], 0)])
  }

  /** `fetch_add` on 64 bits wraps. */
  function NextSerial(serial: nat): nat {
    if serial == U64_MAX then 0 else serial + 1
  }

  /** The hidden name was free: an empty file is created under it. */
  function Created(s: System, h: nat): System
    requires h in s.live
  {
    var part, file := Part(s.process, s.serial), s.disk.nextFile;
    s.(serial := NextSerial(s.serial),
       disk := Disk(s.disk.names[part := file], s.disk.content[file := []], file + 1),
       live := s.live[h := s.live[h].(progress := Open, part := part, file := file)])
  }

  /** The hidden name was taken: the last of the attempts ends the reservation. */
  function Collided(s: System, h: nat): System
    requires h in s.live && s.live[h].progress.Creating?
  {
    var tries := s.live[h].progress.attempts + 1;
    if tries >= STAGING_ATTEMPTS then Forget(s, h).(serial := NextSerial(s.serial))
    else s.(serial := NextSerial(s.serial), live := s.live[h := s.live[h].(progress := Creating(tries))])
  }

  /** One exclusive creation under the next serial number. */
  function AttemptStep(s: System, h: nat): System {
    if h !in s.live || !s.live[h].progress.Creating? then s
    else if Part(s.process, s.serial) in s.disk.names then Collided(s, h)
    else Created(s, h)
  }

  /** An attempt that fails for any other reason gives the reservation up; its
      serial number is spent all the same. */
  function AttemptFailsStep(s: System, h: nat): System {
    if h in s.live && s.live[h].progress.Creating? then Forget(s, h).(serial := NextSerial(s.serial)) else s
  }

  /** Ends a staged file's reservation. */
  function Forget(s: System, h: nat): System
    requires h in s.live
  {
    s.(reserved := s.reserved - {s.live[h].name}, live := Remove(s.live, h))
  }

  predicate Fits(e: Staged, additional: nat) {
    e.written + additional <= e.declared
  }

  /** Bytes reach the end of the file; `counted` of them are accepted. */
  function Append(s: System, h: nat, bytes: Bytes, counted: bool): System
    requires h in s.live && s.live[h].file in s.disk.content
  {
    var e := s.live[h];
    var disk := s.disk.(content := s.disk.content[e.file := s.disk.content[e.file] + bytes]);
    if counted
    then s.(disk := disk, live := s.live[h := e.(written := e.written + |bytes|, accepted := e.accepted + bytes)])
    else s.(disk := disk, live := s.live[h := e.(residue := e.residue + |bytes|)])
  }

  predicate Writable(s: System, h: nat, additional: nat) {
    h in s.live && s.live[h].progress.Open? && s.live[h].file in s.disk.content && Fits(s.live[h], additional)
  }

  function WriteStep(s: System, h: nat, buffer: Bytes, wrote: nat): System {
    if Writable(s, h, |buffer|) && wrote <= |buffer| then Append(s, h, buffer[..wrote], true) else s
  }

  /** `write_all`: all of the buffer, or a failure after some of it landed. */
  function WriteAllStep(s: System, h: nat, buffer: Bytes, failedAfter: Option<nat>): System {
    if !Writable(s, h, |buffer|) then s
    else if failedAfter.None? then Append(s, h, buffer, true)
    else if failedAfter.value <= |buffer| then Append(s, h, buffer[..failedAfter.value], false)
    else s
  }

  /** `commit` up to the link, which follows the hidden name and never replaces;
      it consumes the handle. */
  function CommitStep(s: System, h: nat, ioOk: bool): System {
    if h !in s.live || !s.live[h].progress.Open? then s
    else
      var e := s.live[h];
      if !ioOk || e.written != e.declared || Plain(e.name) in s.disk.names || e.part !in s.disk.names
      then s.(live := s.live[h := e.(progress := Closed(false))])
      else
        var file := s.disk.names[e.part];
        s.(disk := s.disk.(names := s.disk.names[Plain(e.name) := file]),
           live := s.live[h := e.(progress := Linked)],
           published := s.published + [Published(h, e.name, e.declared, file, e.accepted, e.residue)])
  }

  function Unname(s: System, name: Name): System {
    s.(disk := s.disk.(names := Remove(s.disk.names, name)))
  }

  /** The rest of `commit`: removing the hidden name, if that works. */
  function SweepStep(s: System, h: nat, removed: bool): System {
    if h !in s.live || !s.live[h].progress.Linked? then s
    else
      var s1 := s.(live := s.live[h := s.live[h].(progress := Closed(true))]);
      if removed then Unname(s1, s.live[h].part) else s1
  }

  /** Dropping a handle: an uncommitted part is removed, if that works, and the
      reservation ends. */
  function DropStep(s: System, h: nat, removed: bool): System {
    if h !in s.live || s.live[h].progress.Creating? || s.live[h].progress.Linked? then s
    else if s.live[h].progress != Closed(true) && removed then Forget(Unname(s, s.live[h].part), h)
    else Forget(s, h)
  }

  ghost predicate Private(s: System, name: Name) {
    exists h :: h in s.live && s.live[h].Owns() && s.live[h].part == name
  }

  /** One step; one that is not possible changes nothing. */
  ghost function Next(s: System, step: Step): System {
    match step
    case Stage(name, declared) => StageStep(s, name, declared)
    case Attempt(h) => AttemptStep(s, h)
    case AttemptFails(h) => AttemptFailsStep(s, h)
    case Write(h, buffer, wrote) => WriteStep(s, h, buffer, wrote)
    case WriteAll(h, buffer, failedAfter) => WriteAllStep(s, h, buffer, failedAfter)
    case Commit(h, ioOk) => CommitStep(s, h, ioOk)
    case Sweep(h, removed) => SweepStep(s, h, removed)
    case Drop(h, removed) => DropStep(s, h, removed)
    case OthersCreate(name, content) =>
      if name in s.disk.names then s
      else
        var file := s.disk.nextFile;
        s.(disk := Disk(s.disk.names[name := file], s.disk.content[file := content], file + 1))
    case OthersRemove(name) =>
      if Private(s, name) then s else Unname(s, name)
  }

  ghost function Exec(s: System, steps: seq<Step>): System
    decreases |steps|
  {
    if steps == [] then s else Exec(Next(s, steps[0]), steps[1..])
  }

  // ------------------------------------------------------------------
  // What every run keeps
  // ------------------------------------------------------------------

  ghost predicate DiskInv(d: Disk) {
    && (forall n :: n in d.names ==> d.names[n] in d.content)
    && (forall f :: f in d.content ==> f < d.nextFile)
  }

  /** The reserved names are exactly those of live staged files, one each. */
  ghost predicate ReservedInv(reserved: set<Bytes>, live: map<nat, Staged>) {
    && (forall n :: n in reserved ==> exists h :: h in live && live[h].name == n)
    && (forall h :: h in live ==> live[h].name in reserved)
    && (forall h, k :: h in live && k in live && h != k ==> live[h].name != live[k].name)
  }

  /** A file holds the accepted bytes and the residue, and nothing else. */
  predicate Contains(bytes: Bytes, accepted: Bytes, residue: nat) {
    |bytes| == |accepted| + residue && (residue == 0 ==> bytes == accepted)
  }

  ghost predicate FileInv(d: Disk, e: Staged) {
    && |e.accepted| == e.written <= e.declared && e.part.Part?
    && (e.progress.Creating? ==> e.accepted == [] && e.residue == 0)
    && (e.Holds() ==> e.file in d.content && Contains(d.content[e.file], e.accepted, e.residue))
  }

  ghost predicate FilesInv(d: Disk, live: map<nat, Staged>) {
    && (forall h :: h in live ==> FileInv(d, live[h]))
    && (forall h, k :: h in live && k in live && h != k && live[h].Holds() && live[k].Holds() ==> live[h].file != live[k].file)
  }

  /** Each owner's hidden name is its own, and leads to its file. */
  ghost predicate PartsInv(d: Disk, live: map<nat, Staged>) {
    && (forall h :: h in live && live[h].Owns() ==> live[h].part in d.names && d.names[live[h].part] == live[h].file)
    && (forall h, k :: h in live && k in live && h != k && live[h].Owns() && live[k].Owns() ==> live[h].part != live[k].part)
  }

  ghost predicate PublishedInv(d: Disk, live: map<nat, Staged>, published: seq<Published>) {
    forall i :: 0 <= i < |published| ==>
      var p := published[i];
      && |p.accepted| == p.declared
      && p.file in d.content && Contains(d.content[p.file], p.accepted, p.residue)
      && forall h :: h in live && live[h].progress.Open? ==> live[h].file != p.file
  }

  ghost predicate Inv(s: System) {
    && DiskInv(s.disk)
    && (forall h :: h in s.live ==> h < s.nextHandle)
    && ReservedInv(s.reserved, s.live)
    && FilesInv(s.disk, s.live)
    && PartsInv(s.disk, s.live)
    && PublishedInv(s.disk, s.live, s.published)
  }

  function Started(process: nat, disk: Disk): System {
    System(disk, process, 0, {}, map[], 0, [])
  }

  // Replacing or adding one entry.

  lemma PutKeepsFiles(d: Disk, live: map<nat, Staged>, h: nat, e: Staged)
    requires FilesInv(d, live) && FileInv(d, e)
    requires e.Holds() ==> forall k :: k in live && k != h && live[k].Holds() ==> live[k].file != e.file
    ensures FilesInv(d, live[h := e])
  {
  }

  lemma PutKeepsParts(d: Disk, live: map<nat, Staged>, h: nat, e: Staged)
    requires PartsInv(d, live)
    requires e.Owns() ==> e.part in d.names && d.names[e.part] == e.file
    requires e.Owns() ==> forall k :: k in live && k != h && live[k].Owns() ==> live[k].part != e.part
    ensures PartsInv(d, live[h := e])
  {
  }

  lemma PutKeepsPublished(d: Disk, live: map<nat, Staged>, published: seq<Published>, h: nat, e: Staged)
    requires PublishedInv(d, live, published)
    requires e.progress.Open? ==> forall i :: 0 <= i < |published| ==> published[i].file != e.file
    ensures PublishedInv(d, live[h := e], published)
  {
  }

  lemma PutKeepsReserved(reserved: set<Bytes>, live: map<nat, Staged>, h: nat, e: Staged)
    requires h in live && e.name == live[h].name && ReservedInv(reserved, live)
    ensures ReservedInv(reserved, live[h := e])
  {
    var live' := live[h := e];
    forall n | n in reserved
      ensures exists k :: k in live' && live'[k].name == n
    {
      var k :| k in live && live[k].name == n;
      assert k in live' && live'[k].name == n;
    }
  }

  lemma AddKeepsReserved(reserved: set<Bytes>, live: map<nat, Staged>, h: nat, e: Staged)
    requires h !in live && e.name !in reserved && ReservedInv(reserved, live)
    ensures ReservedInv(reserved + {e.name}, live[h := e])
  {
    var live' := live[h := e];
    forall n | n in reserved + {e.name}
      ensures exists k :: k in live' && live'[k].name == n
    {
      if n == e.name {
        assert h in live' && live'[h].name == n;
      } else {
        var k :| k in live && live[k].name == n;
        assert k in live' && live'[k].name == n;
      }
    }
  }

  // Removing one entry.

  lemma ForgetKeepsReserved(reserved: set<Bytes>, live: map<nat, Staged>, h: nat)
    requires h in live && ReservedInv(reserved, live)
    ensures ReservedInv(reserved - {live[h].name}, Remove(live, h))
  {
    var live' := Remove(live, h);
    forall n | n in reserved - {live[h].name}
      ensures exists k :: k in live' && live'[k].name == n
    {
      var k :| k in live && live[k].name == n;
      assert k in live' && live'[k].name == n;
    }
  }

  lemma ForgetKeepsRest(d: Disk, live: map<nat, Staged>, published: seq<Published>, h: nat)
    requires FilesInv(d, live) && PartsInv(d, live) && PublishedInv(d, live, published)
    ensures var live' := Remove(live, h); FilesInv(d, live') && PartsInv(d, live') && PublishedInv(d, live', published)
  {
  }

  lemma ForgetKeepsInv(s: System, h: nat)
    requires Inv(s) && h in s.live
    ensures Inv(Forget(s, h))
  {
    ForgetKeepsReserved(s.reserved, s.live, h);
    ForgetKeepsRest(s.disk, s.live, s.published, h);
  }

  // Changing the disk.

  /** Every file is still there, as it was. */
  ghost predicate Extends(d: Disk, d': Disk) {
    forall f :: f in d.content ==> f in d'.content && d'.content[f] == d.content[f]
  }

  lemma ExtendKeepsFiles(d: Disk, d': Disk, live: map<nat, Staged>)
    requires FilesInv(d, live) && Extends(d, d')
    ensures FilesInv(d', live)
  {
    forall h | h in live
      ensures FileInv(d', live[h])
    {
      assert FileInv(d, live[h]);
    }
  }

  lemma ExtendKeepsPublished(d: Disk, d': Disk, live: map<nat, Staged>, published: seq<Published>)
    requires PublishedInv(d, live, published) && Extends(d, d')
    ensures PublishedInv(d', live, published)
  {
    forall i | 0 <= i < |published|
      ensures published[i].file in d'.content && d'.content[published[i].file] == d.content[published[i].file]
    {
      assert published[i].file in d.content;
    }
  }

  /** A disk on which every file is as it was, and every hidden name of an owner. */
  lemma ExtendKeepsInv(s: System, d': Disk)
    requires Inv(s) && Extends(s.disk, d') && DiskInv(d')
    requires forall h :: h in s.live && s.live[h].Owns() ==>
               s.live[h].part in d'.names && d'.names[s.live[h].part] == s.disk.names[s.live[h].part]
    ensures Inv(s.(disk := d'))
  {
    ExtendKeepsFiles(s.disk, d', s.live);
    ExtendKeepsPublished(s.disk, d', s.live, s.published);
  }

  // Each step.

  lemma StageKeepsInv(s: System, name: Bytes, declared: nat)
    requires Inv(s)
    ensures Inv(Next(s, Stage(name, declared)))
  {
    if SafeFileName(name) && Plain(name) !in s.disk.names && name !in s.reserved {
      var h, e := s.nextHandle, Staged(name, declared, Creating(0), Part(s.process, 0), 0, 0, [], 0);
      AddKeepsReserved(s.reserved, s.live, h, e);
      PutKeepsFiles(s.disk, s.live, h, e);
      PutKeepsParts(s.disk, s.live, h, e);
      PutKeepsPublished(s.disk, s.live, s.published, h, e);
    }
  }

  /** A handle that changes only within what it already holds. */
  lemma PutKeepsInv(s: System, h: nat, e: Staged)
    requires Inv(s) && h in s.live && FileInv(s.disk, e)
    requires e.name == s.live[h].name && e.file == s.live[h].file && e.part == s.live[h].part
    requires (e.Holds() ==> s.live[h].Holds()) && (e.Owns() ==> s.live[h].Owns())
    requires e.progress.Open? ==> s.live[h].progress.Open?
    ensures Inv(s.(live := s.live[h := e]))
  {
    PutKeepsReserved(s.reserved, s.live, h, e);
    PutKeepsFiles(s.disk, s.live, h, e);
    PutKeepsParts(s.disk, s.live, h, e);
    PutKeepsPublished(s.disk, s.live, s.published, h, e);
  }

  lemma SerialKeepsInv(s: System, serial: nat)
    requires Inv(s)
    ensures Inv(s.(serial := serial))
  {
  }

  lemma CreatedKeepsInv(s: System, h: nat)
    requires Inv(s) && h in s.live && s.live[h].progress.Creating? && Part(s.process, s.serial) !in s.disk.names
    ensures Inv(Created(s, h))
  {
    var part, file := Part(s.process, s.serial), s.disk.nextFile;
    var d' := Disk(s.disk.names[part := file], s.disk.content[file := []], file + 1);
    var e := s.live[h].(progress := Open, part := part, file := file);
    assert FileInv(s.disk, s.live[h]);
    ExtendKeepsInv(s, d');
    PutKeepsReserved(s.reserved, s.live, h, e);
    PutKeepsFiles(d', s.live, h, e);
    PutKeepsParts(d', s.live, h, e);
    PutKeepsPublished(d', s.live, s.published, h, e);
  }

  lemma RetryKeepsInv(s: System, h: nat, tries: nat)
    requires Inv(s) && h in s.live && s.live[h].progress.Creating?
    ensures Inv(s.(live := s.live[h := s.live[h].(progress := Creating(tries))]))
  {
    assert FileInv(s.disk, s.live[h]);
    PutKeepsInv(s, h, s.live[h].(progress := Creating(tries)));
  }

  lemma CollidedKeepsInv(s: System, h: nat)
    requires Inv(s) && h in s.live && s.live[h].progress.Creating?
    ensures Inv(Collided(s, h))
  {
    var tries := s.live[h].progress.attempts + 1;
    SerialKeepsInv(s, NextSerial(s.serial));
    if tries >= STAGING_ATTEMPTS {
      ForgetKeepsInv(s.(serial := NextSerial(s.serial)), h);
    } else {
      RetryKeepsInv(s.(serial := NextSerial(s.serial)), h, tries);
    }
  }

  lemma AttemptKeepsInv(s: System, h: nat)
    requires Inv(s)
    ensures Inv(AttemptStep(s, h))
  {
    if h in s.live && s.live[h].progress.Creating? {
      if Part(s.process, s.serial) in s.disk.names {
        CollidedKeepsInv(s, h);
      } else {
        CreatedKeepsInv(s, h);
      }
    }
  }

  lemma AppendedFile(before: Bytes, e: Staged, bytes: Bytes, counted: bool)
    requires Contains(before, e.accepted, e.residue)
    ensures counted ==> Contains(before + bytes, e.accepted + bytes, e.residue)
    ensures !counted ==> Contains(before + bytes, e.accepted, e.residue + |bytes|)
  {
    if |bytes| == 0 {
      assert before + bytes == before;
    }
  }

  lemma AppendKeepsFiles(d: Disk, live: map<nat, Staged>, h: nat, bytes: Bytes, e: Staged)
    requires FilesInv(d, live) && h in live && live[h].Holds() && live[h].file in d.content
    requires e.file == live[h].file
    requires var d' := d.(content := d.content[e.file := d.content[e.file] + bytes]); FileInv(d', e)
    ensures var d' := d.(content := d.content[e.file := d.content[e.file] + bytes]); FilesInv(d', live[h := e])
  {
    var d' := d.(content := d.content[e.file := d.content[e.file] + bytes]);
    var live' := live[h := e];
    forall k | k in live'
      ensures FileInv(d', live'[k])
    {
      if k != h {
        assert FileInv(d, live[k]);
      }
    }
  }

  lemma AppendKeepsPublished(d: Disk, live: map<nat, Staged>, published: seq<Published>, h: nat, bytes: Bytes)
    requires PublishedInv(d, live, published) && h in live && live[h].progress.Open? && live[h].file in d.content
    ensures PublishedInv(d.(content := d.content[live[h].file := d.content[live[h].file] + bytes]), live, published)
  {
    forall i | 0 <= i < |published|
      ensures published[i].file != live[h].file
    {
      assert published[i].file in d.content;
    }
  }

  lemma AppendKeepsInv(s: System, h: nat, bytes: Bytes, counted: bool)
    requires Inv(s) && Writable(s, h, if counted then |bytes| else 0)
    ensures Inv(Append(s, h, bytes, counted))
  {
    var s', e := Append(s, h, bytes, counted), s.live[h];
    assert FileInv(s.disk, e);
    AppendedFile(s.disk.content[e.file], e, bytes, counted);
    AppendKeepsFiles(s.disk, s.live, h, bytes, s'.live[h]);
    AppendKeepsPublished(s.disk, s.live, s.published, h, bytes);
    PutKeepsReserved(s.reserved, s.live, h, s'.live[h]);
    PutKeepsParts(s'.disk, s.live, h, s'.live[h]);
    PublishedAreClosed(s.disk, s.live, s.published, h);
    PutKeepsPublished(s'.disk, s.live, s.published, h, s'.live[h]);
  }

  lemma PublishedAreClosed(d: Disk, live: map<nat, Staged>, published: seq<Published>, h: nat)
    requires PublishedInv(d, live, published) && h in live && live[h].progress.Open?
    ensures forall i :: 0 <= i < |published| ==> published[i].file != live[h].file
  {
    forall i | 0 <= i < |published|
      ensures published[i].file != live[h].file
    {
      assert published[i].file in d.content;
    }
  }

  lemma LinkKeepsInv(s: System, h: nat)
    requires Inv(s) && h in s.live && s.live[h].progress.Open? && s.live[h].written == s.live[h].declared
    requires Plain(s.live[h].name) !in s.disk.names
    ensures Inv(Next(s, Commit(h, true)))
  {
    var e := s.live[h];
    var d' := s.disk.(names := s.disk.names[Plain(e.name) := e.file]);
    assert FileInv(s.disk, e);
    assert forall k :: k in s.live ==> FileInv(s.disk, s.live[k]);
    ExtendKeepsInv(s, d');
    var linked := e.(progress := Linked);
    var s1 := s.(disk := d');
    PutKeepsInv(s1, h, linked);
    PublishOne(d', s.live[h := linked], s.published, Published(h, e.name, e.declared, e.file, e.accepted, e.residue));
  }

  lemma PublishOne(d: Disk, live: map<nat, Staged>, published: seq<Published>, p: Published)
    requires PublishedInv(d, live, published)
    requires |p.accepted| == p.declared && p.file in d.content && Contains(d.content[p.file], p.accepted, p.residue)
    requires forall h :: h in live && live[h].progress.Open? ==> live[h].file != p.file
    ensures PublishedInv(d, live, published + [p])
  {
  }

  lemma CommitKeepsInv(s: System, h: nat, ioOk: bool)
    requires Inv(s)
    ensures Inv(Next(s, Commit(h, ioOk)))
  {
    if h in s.live && s.live[h].progress.Open? {
      var e := s.live[h];
      assert FileInv(s.disk, e);
      if !ioOk || e.written != e.declared || Plain(e.name) in s.disk.names {
        PutKeepsInv(s, h, e.(progress := Closed(false)));
      } else {
        LinkKeepsInv(s, h);
      }
    }
  }

  lemma UnnameKeepsInv(s: System, name: Name)
    requires Inv(s) && !Private(s, name)
    ensures Inv(Unname(s, name))
  {
    ExtendKeepsInv(s, Unname(s, name).disk);
  }

  lemma SoleOwner(d: Disk, live: map<nat, Staged>, h: nat, e: Staged, live': map<nat, Staged>)
    requires PartsInv(d, live) && h in live && live[h].Owns() && !e.Owns() && live' == live[h := e]
    ensures forall k :: k in live' && live'[k].Owns() ==> live'[k].part != live[h].part
  {
  }

  lemma SweepKeepsInv(s: System, h: nat, removed: bool)
    requires Inv(s)
    ensures Inv(Next(s, Sweep(h, removed)))
  {
    if h in s.live && s.live[h].progress.Linked? {
      var e := s.live[h].(progress := Closed(true));
      assert FileInv(s.disk, s.live[h]);
      PutKeepsInv(s, h, e);
      if removed {
        var live' := s.live[h := e];
        SoleOwner(s.disk, s.live, h, e, live');
        UnnameKeepsInv(s.(live := live'), s.live[h].part);
      }
    }
  }

  /** Dropping is closing, then removing a name nobody owns, then forgetting. */
  lemma DropKeepsInv(s: System, h: nat, removed: bool)
    requires Inv(s)
    ensures Inv(Next(s, Drop(h, removed)))
  {
    if h in s.live && !s.live[h].progress.Creating? && !s.live[h].progress.Linked? {
      ForgetKeepsInv(s, h);
      if s.live[h].progress != Closed(true) && removed {
        UnnameKeepsInv(Forget(s, h), s.live[h].part);
      }
    }
  }

  lemma OthersKeepInv(s: System, name: Name, content: Bytes)
    requires Inv(s)
    ensures Inv(Next(s, OthersCreate(name, content))) && Inv(Next(s, OthersRemove(name)))
  {
    if name !in s.disk.names {
      var file := s.disk.nextFile;
      ExtendKeepsInv(s, Disk(s.disk.names[name := file], s.disk.content[file := content], file + 1));
    }
    if !Private(s, name) {
      UnnameKeepsInv(s, name);
    }
  }

  lemma StepKeepsInv(s: System, step: Step)
    requires Inv(s)
    ensures Inv(Next(s, step))
  {
    match step
    case Stage(name, declared) => StageKeepsInv(s, name, declared);
    case Attempt(h) => AttemptKeepsInv(s, h);
    case AttemptFails(h) => {
      if h in s.live {
        ForgetKeepsInv(s, h);
        SerialKeepsInv(Forget(s, h), NextSerial(s.serial));
      }
    }
    case Write(h, buffer, wrote) => {
      if Writable(s, h, |buffer|) && wrote <= |buffer| {
        AppendKeepsInv(s, h, buffer[..wrote], true);
      }
    }
    case WriteAll(h, buffer, failedAfter) => {
      if Writable(s, h, |buffer|) {
        if failedAfter.None? {
          AppendKeepsInv(s, h, buffer, true);
        } else if failedAfter.value <= |buffer| {
          AppendKeepsInv(s, h, buffer[..failedAfter.value], false);
        }
      }
    }
    case Commit(h, ioOk) => CommitKeepsInv(s, h, ioOk);
    case Sweep(h, removed) => SweepKeepsInv(s, h, removed);
    case Drop(h, removed) => DropKeepsInv(s, h, removed);
    case OthersCreate(name, content) => OthersKeepInv(s, name, content);
    case OthersRemove(name) => OthersKeepInv(s, name, []);
  }

  lemma {:induction false} RunKeepsInv(s: System, steps: seq<Step>)
    requires Inv(s)
    ensures Inv(Exec(s, steps))
    decreases |steps|
  {
    if steps != [] {
      StepKeepsInv(s, steps[0]);
      RunKeepsInv(Next(s, steps[0]), steps[1..]);
    }
  }

  /** In every run the reserved names are exactly the names of live staged files,
      which are pairwise distinct. */
  lemma ReservedAreLive(process: nat, disk: Disk, steps: seq<Step>)
    requires DiskInv(disk)
    ensures var s := Exec(Started(process, disk), steps); ReservedInv(s.reserved, s.live)
  {
    RunKeepsInv(Started(process, disk), steps);
  }

  // ------------------------------------------------------------------
  // Publication
  // ------------------------------------------------------------------

  /** In every run, each published file took exactly its declared number of bytes
      in accepted writes, and to this day holds exactly those bytes if and only
      if no failed write left a residue in it. */
  lemma PublishedIsExact(process: nat, disk: Disk, steps: seq<Step>, i: nat)
    requires DiskInv(disk) && i < |Exec(Started(process, disk), steps).published|
    ensures var s := Exec(Started(process, disk), steps);
            var p := s.published[i];
            && |p.accepted| == p.declared
            && p.file in s.disk.content
            && (s.disk.content[p.file] == p.accepted <==> p.residue == 0)
            && (|s.disk.content[p.file]| == p.declared <==> p.residue == 0)
  {
    RunKeepsInv(Started(process, disk), steps);
  }

  predicate Clean(step: Step) {
    step.WriteAll? && step.failedAfter.Some? ==> step.failedAfter.value == 0
  }

  ghost predicate NoResidue(s: System) {
    && (forall h :: h in s.live ==> s.live[h].residue == 0)
    && (forall i :: 0 <= i < |s.published| ==> s.published[i].residue == 0)
  }

  lemma CleanStep(s: System, step: Step)
    requires NoResidue(s) && Clean(step)
    ensures NoResidue(Next(s, step))
  {
  }

  lemma {:induction false} CleanRun(s: System, steps: seq<Step>)
    requires NoResidue(s) && forall k :: 0 <= k < |steps| ==> Clean(steps[k])
    ensures NoResidue(Exec(s, steps))
    decreases |steps|
  {
    if steps != [] {
      CleanStep(s, steps[0]);
      CleanRun(Next(s, steps[0]), steps[1..]);
    }
  }

  /** Where no failing write leaves bytes behind, every published file holds
      exactly its accepted writes, of exactly the declared size. */
  lemma CleanRunsPublishExactly(process: nat, disk: Disk, steps: seq<Step>, i: nat)
    requires DiskInv(disk) && i < |Exec(Started(process, disk), steps).published|
    requires forall k :: 0 <= k < |steps| ==> Clean(steps[k])
    ensures var s := Exec(Started(process, disk), steps);
            var p := s.published[i];
            && p.file in s.disk.content && s.disk.content[p.file] == p.accepted && |p.accepted| == p.declared
  {
    PublishedIsExact(process, disk, steps, i);
    CleanRun(Started(process, disk), steps);
  }

  /** A failed write that left bytes behind can be followed by writes that fill
      the declared size: what is then published is longer than declared. */
  lemma ResidueIsPublished(process: nat, name: Bytes, residue: nat, data: Bytes)
    requires SafeFileName(name) && 0 < residue <= |data|
    ensures var s := Exec(Started(process, Disk(map[], map[], 0)),
                          [Stage(name, |data|), Attempt(0), WriteAll(0, data, Some(residue)),
                           WriteAll(0, data, None), Commit(0, true)]);
            |s.published| == 1 && s.published[0].file in s.disk.content
            && s.disk.content[s.published[0].file] == data[..residue] + data
  {
    var steps := [Stage(name, |data|), Attempt(0), WriteAll(0, data, Some(residue)), WriteAll(0, data, None), Commit(0, true)];
    var s0 := Started(process, Disk(map[], map[], 0));
    var s2 := StagedOnEmpty(process, name, |data|);
    var s1 := Next(s0, steps[0]);
    assert s2 == Next(s1, steps[1]);
    var s3 := Next(s2, steps[2]);
    FilledTwice(s2, data, residue);
    ExecMore(s0, steps, 0);
    ExecMore(s1, steps, 1);
    ExecMore(s2, steps, 2);
    ExecMore(s3, steps, 3);
    var s4 := Next(s3, steps[3]);
    ExecMore(s4, steps, 4);
    assert steps[0..] == steps && steps[5..] == [];
  }

  lemma ExecMore(s: System, steps: seq<Step>, k: nat)
    requires k < |steps|
    ensures Exec(s, steps[k..]) == Exec(Next(s, steps[k]), steps[k + 1..])
  {
    assert steps[k..][0] == steps[k] && steps[k..][1..] == steps[k + 1..];
  }

  lemma StagedOnEmpty(process: nat, name: Bytes, declared: nat) returns (s: System)
    requires SafeFileName(name)
    ensures s == Next(Next(Started(process, Disk(map[], map[], 0)), Stage(name, declared)), Attempt(0))
    ensures 0 in s.live && s.live[0] == Staged(name, declared, Open, Part(process, 0), 0, 0, [], 0)
    ensures s.disk == Disk(map[Part(process, 0) := 0], map[0 := []], 1) && s.published == []
  {
    s := Next(Next(Started(process, Disk(map[], map[], 0)), Stage(name, declared)), Attempt(0));
  }

  lemma FilledTwice(s: System, data: Bytes, residue: nat)
    requires residue <= |data| && 0 in s.live && s.live[0].progress.Open? && s.live[0].file == 0
    requires s.live[0].written == 0 && s.live[0].declared == |data| && s.live[0].part in s.disk.names
    requires s.disk.names[s.live[0].part] == 0 && 0 in s.disk.content && s.disk.content[0] == []
    requires Plain(s.live[0].name) !in s.disk.names && s.published == []
    ensures var s1 := Next(s, WriteAll(0, data, Some(residue)));
            var s3 := Next(Next(s1, WriteAll(0, data, None)), Commit(0, true));
            && |s3.published| == 1 && s3.published[0].file == 0 && 0 in s3.disk.content
            && s3.disk.content[0] == data[..residue] + data
  {
    var s1 := Next(s, WriteAll(0, data, Some(residue)));
    assert s1.disk.content[0] == data[..residue] && s1.live[0].written == 0;
    var s2 := Next(s1, WriteAll(0, data, None));
    assert s2.disk.content[0] == data[..residue] + data && s2.live[0].written == |data|;
  }

  /** No step changes what a name leads to, other than someone else removing it. */
  lemma NameStays(s: System, step: Step, name: Bytes)
    requires Inv(s) && Plain(name) in s.disk.names && step != OthersRemove(Plain(name))
    ensures var names := Next(s, step).disk.names; Plain(name) in names && names[Plain(name)] == s.disk.names[Plain(name)]
  {
    assert forall h :: h in s.live ==> FileInv(s.disk, s.live[h]);
  }

  /** A file no open handle writes to. */
  ghost predicate Settled(s: System, file: nat) {
    file in s.disk.content && forall h :: h in s.live && s.live[h].progress.Open? ==> s.live[h].file != file
  }

  lemma SettledStays(s: System, step: Step, file: nat)
    requires Inv(s) && Settled(s, file)
    ensures Settled(Next(s, step), file) && Next(s, step).disk.content[file] == s.disk.content[file]
  {
    match step
    case Attempt(h) => AttemptSettles(s, h, file);
    case Write(h, buffer, wrote) => {
      if Writable(s, h, |buffer|) && wrote <= |buffer| {
        AppendSettles(s, h, buffer[..wrote], true, file);
      }
    }
    case WriteAll(h, buffer, failedAfter) => {
      if Writable(s, h, |buffer|) {
        if failedAfter.None? {
          AppendSettles(s, h, buffer, true, file);
        } else if failedAfter.value <= |buffer| {
          AppendSettles(s, h, buffer[..failedAfter.value], false, file);
        }
      }
    }
    case _ => {}
  }

  lemma AttemptSettles(s: System, h: nat, file: nat)
    requires DiskInv(s.disk) && Settled(s, file)
    ensures Settled(AttemptStep(s, h), file) && AttemptStep(s, h).disk.content[file] == s.disk.content[file]
  {
  }

  lemma AppendSettles(s: System, h: nat, bytes: Bytes, counted: bool, file: nat)
    requires Settled(s, file) && Writable(s, h, 0)
    ensures var s' := Append(s, h, bytes, counted); Settled(s', file) && s'.disk.content[file] == s.disk.content[file]
  {
  }

  /** Publication finds its destination absent, and leads it to the staged file. */
  lemma PublicationFindsNothing(s: System, step: Step, name: Bytes)
    requires Plain(name) in s.disk.names
    ensures var s' := Next(s, step);
            && s.published <= s'.published && |s'.published| <= |s.published| + 1
            && (|s'.published| > |s.published| ==>
                  var p := s'.published[|s.published|];
                  p.name != name && Plain(p.name) in s'.disk.names && s'.disk.names[Plain(p.name)] == p.file)
  {
  }

  /** Nothing is ever replaced: whatever runs, a destination that exists leads to
      the same file until someone else removes it, a file that no open handle
      writes to keeps its contents, and nothing is published there. */
  lemma {:induction false} NothingIsReplaced(s: System, steps: seq<Step>, name: Bytes)
    requires Inv(s) && Plain(name) in s.disk.names && Settled(s, s.disk.names[Plain(name)])
    requires OthersRemove(Plain(name)) !in steps
    ensures var file, d := s.disk.names[Plain(name)], Exec(s, steps).disk;
            && Plain(name) in d.names && d.names[Plain(name)] == file
            && file in d.content && d.content[file] == s.disk.content[file]
    ensures var published := Exec(s, steps).published;
            && s.published <= published
            && forall i :: |s.published| <= i < |published| ==> published[i].name != name
    decreases |steps|
  {
    if steps != [] {
      StepKeepsInv(s, steps[0]);
      NameStays(s, steps[0], name);
      SettledStays(s, steps[0], s.disk.names[Plain(name)]);
      PublicationFindsNothing(s, steps[0], name);
      NothingIsReplaced(Next(s, steps[0]), steps[1..], name);
    }
  }

  // ------------------------------------------------------------------
  // The receive target as the source keeps it
  // ------------------------------------------------------------------

  function Attempts(s: System, h: nat, n: nat): System {
    if n == 0 then s else AttemptStep(Attempts(s, h, n - 1), h)
  }

  lemma AttemptsNext(s: System, h: nat, n: nat)
    ensures Attempts(s, h, n + 1) == AttemptStep(Attempts(s, h, n), h)
  {
  }

  /** Once a handle is open, or gone, further attempts do nothing. */
  lemma {:induction false} AttemptsEnd(s: System, h: nat, m: nat, n: nat)
    requires m <= n && (h !in Attempts(s, h, m).live || !Attempts(s, h, m).live[h].progress.Creating?)
    ensures Attempts(s, h, n) == Attempts(s, h, m)
    decreases n
  {
    if m < n {
      AttemptsEnd(s, h, m, n - 1);
    }
  }

  /** Nor does a failure that would have come later. */
  lemma AttemptsStop(s: System, h: nat, m: nat, failing: Option<nat>)
    requires m <= STAGING_ATTEMPTS && (h !in Attempts(s, h, m).live || !Attempts(s, h, m).live[h].progress.Creating?)
    ensures Attempts(s, h, STAGING_ATTEMPTS) == Attempts(s, h, m)
    ensures failing.Some? && m <= failing.value ==> AttemptFailsStep(Attempts(s, h, failing.value), h) == Attempts(s, h, m)
  {
    AttemptsEnd(s, h, m, STAGING_ATTEMPTS);
    if failing.Some? && m <= failing.value {
      AttemptsEnd(s, h, m, failing.value);
    }
  }

  class ReceiveTarget {
    const process: nat
    var disk: Disk
    var serial: nat
    var reserved: set<Bytes>
    var live: map<nat, Staged>
    var nextHandle: nat
    var published: seq<Published>

    function Value(): System
      reads this
    {
      System(disk, process, serial, reserved, live, nextHandle, published)
    }

    constructor (process: nat, disk: Disk)
      ensures Value() == Started(process, disk)
    {
      this.process, this.disk := process, disk;
      serial, reserved, live, nextHandle, published := 0, {}, map[], 0, [];
    }

    /** `stage` up to the reservation. */
    method Reserve(name: Bytes, declared: nat) returns (handle: Option<nat>)
      modifies this
      ensures Value() == StageStep(old(Value()), name, declared)
      ensures handle == if Value() == old(Value()) then None else Some(old(nextHandle))
    {
      if !SafeFileName(name) || Plain(name) in disk.names || name in reserved {
        return None;
      }
      reserved := reserved + {name};
      live := live[nextHandle := Staged(name, declared, Creating(0), Part(process, 0), 0, 0, [], 0)];
      handle := Some(nextHandle);
      nextHandle := nextHandle + 1;
    }

    /** One turn of `create_staging_file`; `fails` is an error other than a collision. */
    method AttemptCreate(h: nat, fails: bool)
      requires h in live && live[h].progress.Creating?
      modifies this
      ensures Value() == if fails then AttemptFailsStep(old(Value()), h) else AttemptStep(old(Value()), h)
      ensures if fails then h !in live
              else if h in live then live[h].progress.Open? || live[h].progress == Creating(old(live[h].progress.attempts) + 1)
              else old(live[h].progress.attempts) + 1 >= STAGING_ATTEMPTS
      ensures h in live && live[h].progress.Creating? ==> live[h].progress.attempts < STAGING_ATTEMPTS
    {
      var part := Part(process, serial);
      serial := NextSerial(serial);
      var tries := live[h].progress.attempts + 1;
      if !fails && part !in disk.names {
        var file := disk.nextFile;
        disk := Disk(disk.names[part := file], disk.content[file := []], file + 1);
        live := live[h := live[h].(progress := Open, part := part, file := file)];
      } else if fails || tries >= STAGING_ATTEMPTS {
        reserved := reserved - {live[h].name};
        live := Remove(live, h);
      } else {
        live := live[h := live[h].(progress := Creating(tries))];
      }
    }

    /** `create_staging_file` for a reservation: bounded exclusive attempts, of
        which number `failing`, if it is reached, meets some other error. */
    method CreateStagingFile(h: nat, failing: Option<nat>) returns (created: bool)
      requires h in live && live[h].progress == Creating(0)
      modifies this
      ensures Value() == if failing.Some? && failing.value < STAGING_ATTEMPTS
                         then AttemptFailsStep(Attempts(old(Value()), h, failing.value), h)
                         else Attempts(old(Value()), h, STAGING_ATTEMPTS)
      ensures created <==> h in live
      ensures h in live ==> live[h].progress.Open?
    {
      for i := 0 to STAGING_ATTEMPTS
        invariant Value() == Attempts(old(Value()), h, i)
        invariant failing.Some? && failing.value < STAGING_ATTEMPTS ==> i <= failing.value
        invariant i < STAGING_ATTEMPTS ==> h in live && live[h].progress == Creating(i)
        invariant i == STAGING_ATTEMPTS ==> h !in live
      {
        AttemptCreate(h, failing == Some(i));
        if failing == Some(i) {
          return false;
        }
        AttemptsNext(old(Value()), h, i);
        if h in live && live[h].progress.Open? {
          AttemptsStop(old(Value()), h, i + 1, failing);
          return true;
        }
      }
      return false;
    }

    /** `write_all`; `failedAfter` is how much a failing write leaves behind. */
    method WriteBuffer(h: nat, buffer: Bytes, failedAfter: Option<nat>) returns (ok: bool)
      requires h in live && live[h].progress.Open? && live[h].file in disk.content
      requires failedAfter.Some? ==> failedAfter.value <= |buffer|
      modifies this
      ensures Value() == WriteAllStep(old(Value()), h, buffer, failedAfter)
      ensures ok <==> failedAfter.None? && old(live[h].written) + |buffer| <= old(live[h].declared)
    {
      var e := live[h];
      if e.written + |buffer| > e.declared {
        return false;
      }
      var landed := if failedAfter.None? then buffer else buffer[..failedAfter.value];
      disk := disk.(content := disk.content[e.file := disk.content[e.file] + landed]);
      if failedAfter.Some? {
        live := live[h := e.(residue := e.residue + |landed|)];
        return false;
      }
      live := live[h := e.(written := e.written + |buffer|, accepted := e.accepted + buffer)];
      return true;
    }

    /** `commit` up to the link. */
    method Publish(h: nat, ioOk: bool) returns (ok: bool)
      requires h in live && live[h].progress.Open?
      modifies this
      ensures Value() == CommitStep(old(Value()), h, ioOk)
      ensures ok <==> |published| == |old(published)| + 1
    {
      var e := live[h];
      if !ioOk || e.written < e.declared || e.written != e.declared {
        live := live[h := e.(progress := Closed(false))];
        return false;
      }
      if Plain(e.name) in disk.names || e.part !in disk.names {
        live := live[h := e.(progress := Closed(false))];
        return false;
      }
      var file := disk.names[e.part];
      disk := disk.(names := disk.names[Plain(e.name) := file]);
      live := live[h := e.(progress := Linked)];
      published := published + [Published(h, e.name, e.declared, file, e.accepted, e.residue)];
      return true;
    }

    /** `drop`. */
    method Release(h: nat, removed: bool)
      requires h in live && !live[h].progress.Creating? && !live[h].progress.Linked?
      modifies this
      ensures Value() == DropStep(old(Value()), h, removed)
    {
      var e := live[h];
      if e.progress != Closed(true) && removed {
        disk := disk.(names := Remove(disk.names, e.part));
      }
      reserved := reserved - {e.name};
      live := Remove(live, h);
    }
  }
}
