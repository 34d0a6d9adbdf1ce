/** What becomes of one file, from its reservation to the end of its handle, and
    exactly when each step along the way is taken. */
module StagingLaws {
  import opened Base
  import opened Staging

  /** A name directly below the receive directory that no hidden part can have: no
      control character, slash or backslash, not `.` or `..`, and not beginning with
      `.quickshare-`. */
  predicate DirectChild(name: Bytes) {
    && 1 <= |name| <= 255
    && (forall i :: 0 <= i < |name| ==> name[i] >= 32 && name[i] != 127 && name[i] != 47 && name[i] != 92)
    && name != [46] && name != [46, 46]
    && !([46, 113, 117, 105, 99, 107, 115, 104, 97, 114, 101, 45] <= name)
  }

  lemma SafeNamesAreDirectChildren(name: Bytes)
    ensures SafeFileName(name) <==> DirectChild(name)
  {
  }

  /** A reservation is made exactly for such a name that is neither on disk nor
      reserved. */
  lemma ReservesExactly(s: System, name: Bytes, declared: nat)
    ensures var s' := Next(s, Stage(name, declared));
            if DirectChild(name) && Plain(name) !in s.disk.names && name !in s.reserved
            then s' == s.(reserved := s.reserved + {name}, nextHandle := s.nextHandle + 1, live := s'.live)
                 && (forall h :: h in s'.live <==> h in s.live || h == s.nextHandle)
                 && s'.live[s.nextHandle].name == name
                 && s'.live[s.nextHandle].declared == declared && s'.live[s.nextHandle].progress == Creating(0)
            else s' == s
  {
    SafeNamesAreDirectChildren(name);
  }

  predicate Taken(s: System, serial: nat) {
    Part(s.process, serial) in s.disk.names
  }

  /** A handle about to create its file, whose next `n` hidden names are taken. */
  ghost predicate Collides(s: System, h: nat, n: nat) {
    && h in s.live && s.live[h].progress == Creating(0) && s.serial + n <= 18_446_744_073_709_551_615
    && forall serial :: s.serial <= serial < s.serial + n ==> Taken(s, serial)
  }

  /** Sixty-three taken names leave an attempt; the sixty-fourth ends the reservation. */
  lemma {:induction false} CollisionsAreCounted(s: System, h: nat, n: nat)
    requires Collides(s, h, n) && n <= 63
    ensures var s' := Attempts(s, h, n);
            && h in s'.live && s'.live[h] == s.live[h].(progress := Creating(n))
            && s'.disk == s.disk && s'.process == s.process && s'.serial == s.serial + n && s'.reserved == s.reserved
    decreases n
  {
    if n > 0 {
      CollisionsAreCounted(s, h, n - 1);
      AttemptsNext(s, h, n - 1);
      assert Taken(s, s.serial + (n - 1));
    }
  }

  lemma SixtyFourCollisionsEnd(s: System, h: nat)
    requires Collides(s, h, 64)
    ensures h !in Attempts(s, h, 64).live && Attempts(s, h, 64).reserved == s.reserved - {s.live[h].name}
  {
    CollisionsAreCounted(s, h, 63);
    AttemptsNext(s, h, 63);
    assert Taken(s, s.serial + 63);
  }

  /** All of a buffer is taken exactly while it fits what was declared. */
  lemma WritesExactly(s: System, h: nat, buffer: Bytes)
    requires Inv(s) && h in s.live && s.live[h].progress == Open
    ensures var s', e := Next(s, WriteAll(h, buffer, None)), s.live[h];
            if |e.accepted| + |buffer| <= e.declared
            then h in s'.live && s'.live[h].accepted == e.accepted + buffer && e.file in s'.disk.content
                 && e.file in s.disk.content && s'.disk.content[e.file] == s.disk.content[e.file] + buffer
            else s' == s
  {
    assert FileInv(s.disk, s.live[h]);
  }

  /** A file is published exactly when it holds all it declared, the disk works and
      its name is free; otherwise the handle only closes. */
  lemma CommitsExactly(s: System, h: nat, ioOk: bool)
    requires Inv(s) && h in s.live && s.live[h].progress == Open
    ensures var s', e := Next(s, Commit(h, ioOk)), s.live[h];
            && h in s'.live && s'.disk.content == s.disk.content && s'.reserved == s.reserved
            && if ioOk && |e.accepted| == e.declared && Plain(e.name) !in s.disk.names
               then s'.live[h].progress == Linked && s'.disk.names == s.disk.names[Plain(e.name) := e.file]
               else s'.live[h].progress == Closed(false) && s'.disk.names == s.disk.names && s'.published == s.published
  {
    assert FileInv(s.disk, s.live[h]);
  }

  // ------------------------------------------------------------------
  // Whole lives
  // ------------------------------------------------------------------

  ghost predicate Stageable(s: System, name: Bytes) {
    && Inv(s) && SafeFileName(name) && Plain(name) !in s.disk.names && name !in s.reserved
    && Part(s.process, s.serial) !in s.disk.names
  }

  /** Reserving, creating and filling a file. */
  lemma FileIsFilled(s: System, name: Bytes, declared: nat, data: Bytes) returns (s': System)
    requires Stageable(s, name) && |data| <= declared
    ensures var h := s.nextHandle;
            s' == Exec(s, [Stage(name, declared), Attempt(h), WriteAll(h, data, None)])
    ensures var h, part, file := s.nextHandle, Part(s.process, s.serial), s.disk.nextFile;
            && s'.live == s.live[h := Staged(name, declared, Open, part, file, |data|, data, 0)]
            && s'.reserved == s.reserved + {name} && s'.published == s.published
            && s'.disk == Disk(s.disk.names[part := file], s.disk.content[file := data], file + 1)
  {
    var h := s.nextHandle;
    var steps := [Stage(name, declared), Attempt(h), WriteAll(h, data, None)];
    var s1 := Next(s, steps[0]);
    var s2 := Next(s1, steps[1]);
    assert s2.live[h].file in s2.disk.content && s2.disk.content[s2.live[h].file] == [];
    assert [] + data == data;
    s' := Next(s2, steps[2]);
    assert Exec(s, steps) == Exec(s1, steps[1..]) == Exec(s2, steps[2..]) == Exec(s', steps[3..]) == s';
    assert s'.disk.content == s.disk.content[s.disk.nextFile := data];
    assert s'.live == s.live[h := Staged(name, declared, Open, Part(s.process, s.serial), s.disk.nextFile, |data|, data, 0)];
  }

  lemma Restored<K, V>(m: map<K, V>, k: K, v: V)
    requires k !in m
    ensures Remove(m[k := v], k) == m
  {
  }

  lemma LinkedThenSwept(f: System, h: nat, e: Staged)
    requires h in f.live && f.live[h] == e && e.progress == Open && e.written == e.declared
    requires Plain(e.name) !in f.disk.names && e.part.Part? && e.part in f.disk.names
    ensures var s' := Next(Next(f, Commit(h, true)), Sweep(h, true));
            && s'.live == f.live[h := e.(progress := Closed(true))] && s'.reserved == f.reserved
            && s'.disk == f.disk.(names := Remove(f.disk.names[Plain(e.name) := f.disk.names[e.part]], e.part))
            && s'.published ==
               f.published + [Published(h, e.name, e.declared, f.disk.names[e.part], e.accepted, e.residue)]
  {
    assert f.live[h := e.(progress := Linked)][h := e.(progress := Closed(true))] == f.live[h := e.(progress := Closed(true))];
  }

  lemma Released(f: System, h: nat, live: map<nat, Staged>, e: Staged, reserved: set<Bytes>)
    requires f.live == live[h := e] && h !in live && e.progress == Closed(true)
    requires f.reserved == reserved + {e.name} && e.name !in reserved
    ensures Next(f, Drop(h, true)) == f.(live := live, reserved := reserved)
  {
    Restored(live, h, e);
    assert reserved + {e.name} - {e.name} == reserved;
  }

  /** A file filled, committed and swept is on disk under its name with its data, and
      nothing else is left of it. */
  lemma FileIsReceived(s: System, name: Bytes, data: Bytes)
    requires Stageable(s, name)
    ensures var h := s.nextHandle;
            var filled := Exec(s, [Stage(name, |data|), Attempt(h), WriteAll(h, data, None)]);
            var s' := Next(Next(Next(filled, Commit(h, true)), Sweep(h, true)), Drop(h, true));
            && s'.live == s.live && s'.reserved == s.reserved
            && s'.disk.names == s.disk.names[Plain(name) := s.disk.nextFile]
            && s'.disk.content == s.disk.content[s.disk.nextFile := data]
            && s'.published == s.published + [Published(h, name, |data|, s.disk.nextFile, data, 0)]
  {
    var h, part, file := s.nextHandle, Part(s.process, s.serial), s.disk.nextFile;
    var filled := FileIsFilled(s, name, |data|, data);
    var e := Staged(name, |data|, Open, part, file, |data|, data, 0);
    LinkedThenSwept(filled, h, e);
    var swept := Next(Next(filled, Commit(h, true)), Sweep(h, true));
    Exchanged(s.disk.names, part, Plain(name), file);
    Overwritten(s.live, h, e, e.(progress := Closed(true)));
    Released(swept, h, s.live, e.(progress := Closed(true)), s.reserved);
  }

  lemma Exchanged(names: map<Name, nat>, part: Name, name: Name, file: nat)
    requires part !in names && part != name
    ensures Remove(names[part := file][name := file], part) == names[name := file]
  {
  }

  lemma Overwritten<K, V>(m: map<K, V>, k: K, v: V, w: V)
    ensures m[k := v][k := w] == m[k := w]
  {
  }

  lemma Abandoned(f: System, h: nat, live: map<nat, Staged>, e: Staged, reserved: set<Bytes>, names: map<Name, nat>)
    requires f.live == live[h := e] && h !in live && e.progress == Open
    requires f.reserved == reserved + {e.name} && e.name !in reserved
    requires f.disk.names == names[e.part := e.file] && e.part !in names
    ensures Next(f, Drop(h, true)) == f.(live := live, reserved := reserved, disk := f.disk.(names := names))
  {
    Restored(live, h, e);
    Restored(names, e.part, e.file);
    assert reserved + {e.name} - {e.name} == reserved;
  }

  /** A handle dropped before its commit takes its hidden part and its reservation
      with it: the directory is as it was. */
  lemma FileIsAbandoned(s: System, name: Bytes, declared: nat, data: Bytes)
    requires Stageable(s, name) && |data| <= declared
    ensures var h := s.nextHandle;
            var filled := Exec(s, [Stage(name, declared), Attempt(h), WriteAll(h, data, None)]);
            var s' := Next(filled, Drop(h, true));
            && s'.live == s.live && s'.reserved == s.reserved && s'.published == s.published
            && s'.disk.names == s.disk.names
  {
    var h, part, file := s.nextHandle, Part(s.process, s.serial), s.disk.nextFile;
    var filled := FileIsFilled(s, name, declared, data);
    var e := Staged(name, declared, Open, part, file, |data|, data, 0);
    Abandoned(filled, h, s.live, e, s.reserved, s.disk.names);
  }
}
