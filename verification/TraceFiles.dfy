/** The rotating trace writer of the ODBC driver, over a file system whose operations may fail. */
module TraceFiles {
  import opened ByteCodec
  import opened DecimalText

  type Path = string

  const MAX_FILENAME_ATTEMPTS := 100
  const U32_MAX := 0xFFFF_FFFF
  const U64_MAX := 0xFFFF_FFFF_FFFF_FFFF

  function BasePath(stem: string): Path { stem + ".log" }

  function RotatedPath(stem: string, n: nat): Path { stem + "." + NatText(n) + ".log" }

  /** Different rollover numbers name different files. */
  lemma RotatedPathInjective(stem: string, a: nat, b: nat)
    requires RotatedPath(stem, a) == RotatedPath(stem, b)
    ensures a == b
  {
    var p, q := RotatedPath(stem, a), RotatedPath(stem, b);
    assert p[|stem| + 1..|p| - 4] == NatText(a);
    assert q[|stem| + 1..|q| - 4] == NatText(b);
    NatTextInjective(a, b);
  }

  // File system

  datatype Handle = Handle(path: Path, append: bool, pos: nat)

  datatype Creation = Created(handle: Handle) | AlreadyExists | CreateFailed

  /** Contents after `data` is written at `pos`. */
  function Overwrite(contents: seq<byte>, pos: nat, data: seq<byte>): seq<byte>
    requires pos <= |contents|
  {
    contents[..pos] + data + (if pos + |data| < |contents| then contents[pos + |data|..] else [])
  }

  lemma OverwriteEnd(contents: seq<byte>, data: seq<byte>)
    ensures Overwrite(contents, |contents|, data) == contents + data
  {
  }

  /** Files by path, and the paths this process holds open handles to. Which operations fail is not determined. */
  class FileSystem {
    var files: map<Path, seq<byte>>
    ghost var open: set<Path>
    /** Creations that have failed for a reason other than a taken name, and failed openings and writes. */
    ghost var creationFailures: nat
    ghost var failures: nat

    method CreateNew(path: Path) returns (r: Creation)
      modifies this`files, this`open, this`creationFailures
      ensures r.Created? ==>
                && path !in old(files) && files == old(files)[path := []]
                && open == old(open) + {path} && r.handle == Handle(path, false, 0)
      ensures !r.Created? ==> files == old(files) && open == old(open)
      ensures r.AlreadyExists? ==> path in files
      ensures creationFailures == old(creationFailures) + if r.CreateFailed? then 1 else 0
    {
      var fails: bool := *;
      if fails {
        creationFailures := creationFailures + 1;
        return CreateFailed;
      }
      if path in files {
        return AlreadyExists;
      }
      files := files[path := []];
      open := open + {path};
      return Created(Handle(path, false, 0));
    }

    /** Opening a file this process already has open is never asked for. */
    method OpenAppend(path: Path) returns (r: Option<Handle>)
      requires path !in open
      modifies this`open, this`failures
      ensures r.Some? ==> path in files && open == old(open) + {path} && r.value.path == path && r.value.append
      ensures r.None? ==> open == old(open)
      ensures failures == old(failures) + if r.None? then 1 else 0
    {
      var fails: bool := *;
      if fails || path !in files {
        failures := failures + 1;
        return None;
      }
      open := open + {path};
      return Some(Handle(path, true, 0));
    }

    method Close(h: Handle)
      requires h.path in open
      modifies this`open
      ensures open == old(open) - {h.path}
    {
      open := open - {h.path};
    }

    /** Writes a nonempty part of the data, or fails. A handle opened for writing writes at its position,
        over whatever is there; one opened for appending writes at the end. */
    method Write(h: Handle, data: seq<byte>) returns (n: Option<nat>, after: Handle)
      requires h.path in files && h.path in open && (h.append || h.pos <= |files[h.path]|) && data != []
      modifies this`files, this`failures
      ensures n.None? ==> files == old(files) && after == h
      ensures n.Some? ==>
                && 0 < n.value <= |data| && after == h.(pos := h.pos + n.value)
                && files == old(files)[h.path :=
                     var c := old(files)[h.path];
                     if h.append then c + data[..n.value] else Overwrite(c, h.pos, data[..n.value])]
      ensures failures == old(failures) + if n.None? then 1 else 0
    {
      var fails: bool := *;
      if fails {
        failures := failures + 1;
        return None, h;
      }
      var k: nat :| 0 < k <= |data|;
      var c := files[h.path];
      files := files[h.path := if h.append then c + data[..k] else Overwrite(c, h.pos, data[..k])];
      return Some(k), h.(pos := h.pos + k);
    }
  }

  // What the files hold

  /** The trace files in creation order, the events in each, and all events in order. An event is the
      bytes the writer accepted of it. */
  datatype Books = Books(chain: seq<Path>, perFile: seq<seq<seq<byte>>>, events: seq<seq<byte>>)

  function Join(lists: seq<seq<seq<byte>>>): seq<seq<byte>> {
    if lists == [] then [] else lists[0] + Join(lists[1..])
  }

  lemma {:induction false} JoinSnoc(lists: seq<seq<seq<byte>>>, l: seq<seq<byte>>)
    ensures Join(lists + [l]) == Join(lists) + l
  {
    if lists == [] {
      assert lists + [l] == [l] && [l][1..] == [];
      assert l + [] == l;
    } else {
      assert (lists + [l])[1..] == lists[1..] + [l];
      JoinSnoc(lists[1..], l);
    }
  }

  ghost predicate Distinct(chain: seq<Path>) { forall i, j :: 0 <= i < j < |chain| ==> chain[i] != chain[j] }

  /** Each file is exactly its events, whole and in order, and the files together hold all events in order. */
  ghost predicate Kept(b: Books, files: map<Path, seq<byte>>) {
    && |b.chain| == |b.perFile| >= 1 && Distinct(b.chain)
    && b.events == Join(b.perFile)
    && forall k :: 0 <= k < |b.chain| ==> b.chain[k] in files && files[b.chain[k]] == Flatten(b.perFile[k])
  }

  ghost function Current(b: Books): seq<seq<byte>>
    requires |b.perFile| >= 1
  {
    b.perFile[|b.perFile| - 1]
  }

  /** The books with the event list of the current file replaced, and all events with it. */
  ghost function Replaced(b: Books, current: seq<seq<byte>>): Books
    requires |b.perFile| >= 1
  {
    var older := b.perFile[..|b.perFile| - 1];
    b.(perFile := older + [current], events := Join(older) + current)
  }

  lemma ReplacedKept(b: Books, files: map<Path, seq<byte>>, current: seq<seq<byte>>)
    requires Kept(b, files)
    ensures Kept(Replaced(b, current), files[b.chain[|b.chain| - 1] := Flatten(current)])
  {
    hide Join, Flatten;
    var n := |b.chain| - 1;
    var older := b.perFile[..n];
    JoinSnoc(older, current);
    var after := Replaced(b, current);
    var files' := files[b.chain[n] := Flatten(current)];
    forall k | 0 <= k < |after.chain|
      ensures after.chain[k] in files' && files'[after.chain[k]] == Flatten(after.perFile[k])
    {
      assert k < n ==> after.chain[k] != b.chain[n] && after.perFile[k] == b.perFile[k];
    }
  }

  /** An event begins: nothing of it is accepted yet. */
  ghost function Started(b: Books): Books
    requires |b.perFile| >= 1
  {
    Replaced(b, Current(b) + [[]])
  }

  lemma StartedKept(b: Books, files: map<Path, seq<byte>>)
    requires Kept(b, files)
    ensures Kept(Started(b), files)
    ensures Started(b).events == b.events + [[]]
  {
    hide Join;
    var n := |b.chain| - 1;
    FlattenSnoc(Current(b), []);
    assert Flatten(Current(b)) + [] == Flatten(Current(b));
    ReplacedKept(b, files, Current(b) + [[]]);
    assert files[b.chain[n] := files[b.chain[n]]] == files;
    assert b.perFile == b.perFile[..n] + [Current(b)];
    JoinSnoc(b.perFile[..n], Current(b));
    assert Join(b.perFile[..n]) + (Current(b) + [[]]) == Join(b.perFile[..n]) + Current(b) + [[]];
  }

  /** The event in progress takes more bytes. */
  ghost function Extended(b: Books, data: seq<byte>): Books
    requires |b.perFile| >= 1 && Current(b) != []
  {
    var c := Current(b);
    Replaced(b, c[..|c| - 1] + [c[|c| - 1] + data])
  }

  ghost function GrowLast(events: seq<seq<byte>>, data: seq<byte>): seq<seq<byte>>
    requires events != []
  {
    events[..|events| - 1] + [events[|events| - 1] + data]
  }

  lemma GrowSnoc(earlier: seq<seq<byte>>, last: seq<byte>, data: seq<byte>)
    ensures GrowLast(earlier + [last], data) == earlier + [last + data]
  {
    assert (earlier + [last])[..|earlier|] == earlier;
  }

  lemma ExtendedKept(b: Books, files: map<Path, seq<byte>>, data: seq<byte>)
    requires Kept(b, files) && Current(b) != []
    ensures var p := b.chain[|b.chain| - 1]; Kept(Extended(b, data), files[p := files[p] + data])
    ensures b.events != [] && Extended(b, data).events == GrowLast(b.events, data)
  {
    hide Join;
    var n, c := |b.chain| - 1, Current(b);
    var front, last := c[..|c| - 1], c[|c| - 1];
    FlattenSnoc(front, last);
    FlattenSnoc(front, last + data);
    assert c == front + [last];
    assert Flatten(front) + (last + data) == Flatten(front) + last + data;
    ReplacedKept(b, files, front + [last + data]);
    assert b.perFile == b.perFile[..n] + [c];
    JoinSnoc(b.perFile[..n], c);
    var older := Join(b.perFile[..n]);
    assert b.events == older + front + [last];
    assert b.events[..|b.events| - 1] == older + front;
    assert older + (front + [last + data]) == older + front + [last + data];
  }

  lemma NewFileKept(b: Books, files: map<Path, seq<byte>>, p: Path)
    requires Kept(b, files) && p !in files
    ensures Kept(Books(b.chain + [p], b.perFile + [[]], b.events), files[p := []])
  {
    hide Join;
    JoinSnoc(b.perFile, []);
    assert Join(b.perFile) + [] == Join(b.perFile);
    var after := Books(b.chain + [p], b.perFile + [[]], b.events);
    forall k | 0 <= k < |after.chain|
      ensures after.chain[k] in files[p := []] && files[p := []][after.chain[k]] == Flatten(after.perFile[k])
    {
      assert k < |b.chain| ==> after.chain[k] == b.chain[k] && after.perFile[k] == b.perFile[k];
    }
  }

  lemma ForeignKept(b: Books, files: map<Path, seq<byte>>, p: Path, data: seq<byte>)
    requires Kept(b, files) && p !in files
    ensures Kept(b, files[p := data])
  {
    hide Join;
  }

  function Contents(chain: seq<Path>, files: map<Path, seq<byte>>): (cs: seq<seq<byte>>)
    requires forall k :: 0 <= k < |chain| ==> chain[k] in files
    ensures |cs| == |chain|
  {
    seq(|chain|, k requires 0 <= k < |chain| => files[chain[k]])
  }

  lemma {:induction false} FlattenJoin(contents: seq<seq<byte>>, lists: seq<seq<seq<byte>>>)
    requires |contents| == |lists| && forall k :: 0 <= k < |lists| ==> contents[k] == Flatten(lists[k])
    ensures Flatten(contents) == Flatten(Join(lists))
  {
    if lists != [] {
      FlattenJoin(contents[1..], lists[1..]);
      FlattenAppend(lists[0], Join(lists[1..]));
    }
  }

  /** The base file followed by its rotated files in creation order is exactly the accepted events in order. */
  lemma FilesAreEvents(b: Books, files: map<Path, seq<byte>>)
    requires Kept(b, files)
    ensures Flatten(Contents(b.chain, files)) == Flatten(b.events)
  {
    FlattenJoin(Contents(b.chain, files), b.perFile);
  }

  // Numbers and sizes

  /** Rollover numbers increase; every number below the next one is held by some file. */
  ghost predicate Numbered(stem: string, chain: seq<Path>, suffixes: seq<nat>, next: nat, files: map<Path, seq<byte>>) {
    && |chain| == |suffixes| + 1 && chain[0] == BasePath(stem)
    && (forall k :: 0 <= k < |suffixes| ==> chain[k + 1] == RotatedPath(stem, suffixes[k]))
    && (forall i, j :: 0 <= i < j < |suffixes| ==> suffixes[i] < suffixes[j])
    && 1 <= next <= U32_MAX
    && (forall n :: 1 <= n < next ==> RotatedPath(stem, n) in files)
    && (forall k :: 0 <= k < |suffixes| ==> 1 <= suffixes[k] <= next && RotatedPath(stem, suffixes[k]) in files)
    && (forall k :: 0 <= k < |suffixes| ==> suffixes[k] < next || next == U32_MAX)
  }

  function SaturatingNext(n: nat): nat { if n < U32_MAX then n + 1 else U32_MAX }

  /** All the names a reservation starting at `next` would try are taken. */
  ghost predicate NamesTaken(stem: string, next: nat, files: map<Path, seq<byte>>) {
    forall k: nat :: k < MAX_FILENAME_ATTEMPTS ==> RotatedPath(stem, Advance(next, k)) in files
  }

  /** As many numbers in a row as a reservation tries are held by these files. */
  ghost predicate Block(stem: string, names: set<Path>) {
    exists n: nat :: n > 0 && HeldFrom(stem, names, n)
  }

  ghost predicate HeldFrom(stem: string, names: set<Path>, n: nat) {
    forall m: nat :: n <= m < n + MAX_FILENAME_ATTEMPTS ==> RotatedPath(stem, m) in names
  }

  /** The counter after `k` taken numbers. */
  function Advance(n: nat, k: nat): nat { if n + k < U32_MAX then n + k else U32_MAX }

  lemma NumberSkipped(stem: string, chain: seq<Path>, suffixes: seq<nat>, next: nat, files: map<Path, seq<byte>>)
    requires Numbered(stem, chain, suffixes, next, files) && RotatedPath(stem, next) in files
    ensures Numbered(stem, chain, suffixes, SaturatingNext(next), files)
  {
    hide RotatedPath, BasePath;
  }

  lemma NumberTaken(stem: string, chain: seq<Path>, suffixes: seq<nat>, next: nat, files: map<Path, seq<byte>>)
    requires Numbered(stem, chain, suffixes, next, files) && RotatedPath(stem, next) !in files
    ensures var p := RotatedPath(stem, next);
            Numbered(stem, chain + [p], suffixes + [next], SaturatingNext(next), files[p := []])
  {
    hide RotatedPath, BasePath;
    var p := RotatedPath(stem, next);
    var chain', suffixes' := chain + [p], suffixes + [next];
    assert forall k :: 0 <= k < |suffixes| ==> suffixes[k] < next by {
      forall k | 0 <= k < |suffixes| ensures suffixes[k] < next {
        assert suffixes[k] != next;
      }
    }
    forall k | 0 <= k < |suffixes'| ensures chain'[k + 1] == RotatedPath(stem, suffixes'[k]) {
    }
  }

  /** Growing the file system keeps the numbering. */
  lemma NumberedGrows(stem: string, chain: seq<Path>, suffixes: seq<nat>, next: nat, before: map<Path, seq<byte>>,
                      files: map<Path, seq<byte>>)
    requires Numbered(stem, chain, suffixes, next, before) && before.Keys <= files.Keys
    ensures Numbered(stem, chain, suffixes, next, files)
  {
    hide RotatedPath, BasePath;
  }

  /** Rotation attempts are at least `max` recorded bytes apart, and the counter never overstates the
      bytes recorded since the last. */
  ghost predicate Spaced(attempts: seq<nat>, recorded: nat, counter: nat, max: nat) {
    && (forall i :: 0 <= i < |attempts| ==> attempts[i] <= recorded)
    && (forall i, j :: 0 <= i < j < |attempts| ==> attempts[i] + max <= attempts[j])
    && (|attempts| > 0 ==> max <= attempts[0])
    && counter <= recorded - (if attempts == [] then 0 else attempts[|attempts| - 1])
  }

  lemma SpacedAttempt(attempts: seq<nat>, recorded: nat, counter: nat, max: nat)
    requires Spaced(attempts, recorded, counter, max) && counter >= max
    ensures Spaced(attempts + [recorded], recorded, 0, max)
  {
  }

  lemma SpacedRecorded(attempts: seq<nat>, recorded: nat, counter: nat, max: nat, n: nat)
    requires Spaced(attempts, recorded, counter, max)
    ensures Spaced(attempts, recorded + n, Min64(counter + n), max)
  {
  }

  function Min64(n: nat): nat { if n < U64_MAX then n else U64_MAX }

  /** Every event but the first was begun below the limit. */
  ghost predicate Short(events: seq<seq<byte>>, max: nat) {
    |events| <= 1 || |Flatten(events[..|events| - 1])| < max
  }

  /** Without failed reservations the counter is the size of the current file, and all files are short. */
  ghost predicate Bounded(perFile: seq<seq<seq<byte>>>, counter: nat, max: nat) {
    && |perFile| >= 1 && counter == Min64(|Flatten(perFile[|perFile| - 1])|)
    && forall k :: 0 <= k < |perFile| ==> Short(perFile[k], max)
  }

  lemma BoundedReplaced(b: Books, counter: nat, max: nat, current: seq<seq<byte>>)
    requires |b.perFile| >= 1 && Bounded(b.perFile, counter, max) && Short(current, max)
    ensures Bounded(Replaced(b, current).perFile, Min64(|Flatten(current)|), max)
  {
    hide Short, Flatten, Join;
    var n := |b.perFile| - 1;
    var after := Replaced(b, current).perFile;
    forall k | 0 <= k < |after| ensures Short(after[k], max) {
      assert k < n ==> after[k] == b.perFile[k];
    }
  }

  lemma StartedBounded(b: Books, counter: nat, max: nat)
    requires |b.perFile| >= 1 && Bounded(b.perFile, counter, max) && max <= U64_MAX
    requires counter < max || Current(b) == []
    ensures Bounded(Started(b).perFile, counter, max)
  {
    hide Join;
    var c := Current(b);
    FlattenSnoc(c, []);
    assert Flatten(c) + [] == Flatten(c);
    assert (c + [[]])[..|c|] == c;
    BoundedReplaced(b, counter, max, c + [[]]);
  }

  lemma EmptyShort(max: nat)
    ensures Short([], max)
  {
  }

  lemma ShortGrown(events: seq<seq<byte>>, data: seq<byte>, max: nat)
    requires events != [] && Short(events, max)
    ensures Short(events[..|events| - 1] + [events[|events| - 1] + data], max)
  {
    var front := events[..|events| - 1];
    assert (front + [events[|events| - 1] + data])[..|front|] == front;
  }

  lemma ExtendedBounded(b: Books, counter: nat, max: nat, data: seq<byte>)
    requires |b.perFile| >= 1 && Current(b) != [] && Bounded(b.perFile, counter, max)
    ensures Bounded(Extended(b, data).perFile, Min64(counter + |data|), max)
  {
    hide Join, Flatten, Short;
    var c := Current(b);
    var front, last := c[..|c| - 1], c[|c| - 1];
    var grown := front + [last + data];
    FlattenSnoc(front, last);
    FlattenSnoc(front, last + data);
    assert c == front + [last];
    ShortGrown(c, data, max);
    BoundedReplaced(b, counter, max, grown);
  }

  lemma NewFileBounded(perFile: seq<seq<seq<byte>>>, counter: nat, max: nat)
    requires Bounded(perFile, counter, max)
    ensures Bounded(perFile + [[]], 0, max)
  {
    hide Short;
    var after := perFile + [[]];
    forall k | 0 <= k < |after| ensures Short(after[k], max) {
      assert k < |perFile| ==> after[k] == perFile[k];
      EmptyShort(max);
    }
  }

  // The writer's accounts

  /** What the trace holds, the numbers of its rotated files, all bytes recorded, the points at which
      rotation was attempted, and whether an attempt has failed. */
  datatype Journal = Journal(books: Books, suffixes: seq<nat>, recorded: nat, attempts: seq<nat>, failed: bool)

  /** The counters the writer keeps in memory. */
  datatype Counters = Counters(path: Path, bytesWritten: nat, nextRotation: nat)

  ghost predicate Sound(j: Journal, c: Counters, stem: string, max: nat, files: map<Path, seq<byte>>) {
    && max <= U64_MAX && c.bytesWritten <= U64_MAX
    && Kept(j.books, files) && c.path == j.books.chain[|j.books.chain| - 1]
    && Numbered(stem, j.books.chain, j.suffixes, c.nextRotation, files)
    && Spaced(j.attempts, j.recorded, c.bytesWritten, max)
    && (!j.failed ==> Bounded(j.books.perFile, c.bytesWritten, max))
  }

  lemma SoundFacts(j: Journal, c: Counters, stem: string, max: nat, files: map<Path, seq<byte>>)
    requires Sound(j, c, stem, max, files)
    ensures |j.books.perFile| == |j.books.chain| >= 1 && Kept(j.books, files)
    ensures c.path in files && files[c.path] == Flatten(Current(j.books)) && 1 <= c.nextRotation <= U32_MAX
    ensures forall k :: 0 <= k < |j.books.chain| ==> j.books.chain[k] in files
  {
    hide Spaced, Bounded, Join, Flatten, RotatedPath, BasePath;
  }

  lemma SoundForeign(j: Journal, c: Counters, stem: string, max: nat, files: map<Path, seq<byte>>, p: Path,
                     data: seq<byte>)
    requires Sound(j, c, stem, max, files) && p !in files
    ensures Sound(j, c, stem, max, files[p := data])
  {
    hide Kept, Numbered, Spaced, Bounded;
    ForeignKept(j.books, files, p, data);
    NumberedGrows(stem, j.books.chain, j.suffixes, c.nextRotation, files, files[p := data]);
  }

  lemma SoundSkipped(j: Journal, c: Counters, stem: string, max: nat, files: map<Path, seq<byte>>)
    requires Sound(j, c, stem, max, files) && RotatedPath(stem, c.nextRotation) in files
    ensures Sound(j, c.(nextRotation := SaturatingNext(c.nextRotation)), stem, max, files)
  {
    hide Kept, Numbered, Spaced, Bounded, RotatedPath;
    NumberSkipped(stem, j.books.chain, j.suffixes, c.nextRotation, files);
  }

  ghost function Attempted(j: Journal): Journal { j.(attempts := j.attempts + [j.recorded]) }

  lemma SoundAttemptFailed(j: Journal, c: Counters, stem: string, max: nat, files: map<Path, seq<byte>>)
    requires Sound(j, c, stem, max, files) && c.bytesWritten >= max
    ensures Sound(Attempted(j).(failed := true), c.(bytesWritten := 0), stem, max, files)
  {
    hide Kept, Numbered, Spaced, Bounded;
    SpacedAttempt(j.attempts, j.recorded, c.bytesWritten, max);
  }

  /** The journal after a roll over to a new file. */
  ghost function RolledOver(j: Journal, p: Path, number: nat): Journal {
    var books := Books(j.books.chain + [p], j.books.perFile + [[]], j.books.events);
    Attempted(j).(books := books, suffixes := j.suffixes + [number])
  }

  lemma SoundRolledOver(j: Journal, c: Counters, stem: string, max: nat, files: map<Path, seq<byte>>)
    requires Sound(j, c, stem, max, files) && c.bytesWritten >= max && RotatedPath(stem, c.nextRotation) !in files
    ensures var p := RotatedPath(stem, c.nextRotation);
            var after := Counters(p, 0, SaturatingNext(c.nextRotation));
            Sound(RolledOver(j, p, c.nextRotation), after, stem, max, files[p := []])
  {
    hide Kept, Numbered, Spaced, Bounded, RotatedPath;
    SpacedAttempt(j.attempts, j.recorded, c.bytesWritten, max);
    NewFileKept(j.books, files, RotatedPath(stem, c.nextRotation));
    NumberTaken(stem, j.books.chain, j.suffixes, c.nextRotation, files);
    if !j.failed {
      NewFileBounded(j.books.perFile, c.bytesWritten, max);
    }
  }

  /** An event may go into the current file: the limit is not reached, or nothing is in the file yet, unless
      a roll over has failed. */
  ghost predicate Ready(j: Journal, c: Counters, max: nat) {
    c.bytesWritten < max || j.failed || (|j.books.perFile| >= 1 && Current(j.books) == [])
  }

  ghost function Begun(j: Journal): Journal
    requires |j.books.perFile| >= 1
  {
    j.(books := Started(j.books))
  }

  lemma SoundBegun(j: Journal, c: Counters, stem: string, max: nat, files: map<Path, seq<byte>>)
    requires Sound(j, c, stem, max, files) && |j.books.perFile| >= 1 && Ready(j, c, max)
    ensures Sound(Begun(j), c, stem, max, files)
    ensures Begun(j).books.events == j.books.events + [[]] && Begun(j).failed == j.failed
    ensures |Begun(j).books.perFile| >= 1 && Current(Begun(j).books) != [] && Begun(j).books.chain == j.books.chain
  {
    hide Kept, Numbered, Spaced, Bounded, Join, Flatten;
    StartedKept(j.books, files);
    if !j.failed {
      StartedBounded(j.books, c.bytesWritten, max);
    }
  }

  ghost function Accepted(j: Journal, data: seq<byte>): Journal
    requires |j.books.perFile| >= 1 && Current(j.books) != []
  {
    j.(books := Extended(j.books, data), recorded := j.recorded + |data|)
  }

  lemma SoundAccepted(j: Journal, c: Counters, stem: string, max: nat, files: map<Path, seq<byte>>, data: seq<byte>)
    requires Sound(j, c, stem, max, files) && c.path in files && |j.books.perFile| >= 1 && Current(j.books) != []
    ensures var after := c.(bytesWritten := Min64(c.bytesWritten + |data|));
            Sound(Accepted(j, data), after, stem, max, files[c.path := files[c.path] + data])
    ensures j.books.events != []
    ensures Accepted(j, data).books.events == GrowLast(j.books.events, data)
    ensures |Accepted(j, data).books.perFile| >= 1 && Current(Accepted(j, data).books) != []
    ensures Accepted(j, data).books.chain == j.books.chain
  {
    hide Kept, Numbered, Spaced, Bounded, Join, Flatten;
    ExtendedKept(j.books, files, data);
    NumberedGrows(stem, j.books.chain, j.suffixes, c.nextRotation, files, files[c.path := files[c.path] + data]);
    SpacedRecorded(j.attempts, j.recorded, c.bytesWritten, max, |data|);
    if !j.failed {
      ExtendedBounded(j.books, c.bytesWritten, max, data);
    }
  }

  // What every reachable state says

  /** The file is shorter than the limit plus its last event; with a limit of zero every event has a file to
      itself. */
  ghost predicate FileShort(b: Books, max: nat, files: map<Path, seq<byte>>, k: nat) {
    && k < |b.chain| == |b.perFile| && b.chain[k] in files
    && var events := b.perFile[k];
       if max == 0 then |events| <= 1
       else |files[b.chain[k]]| < max + if events == [] then 0 else |events[|events| - 1]|
  }

  /** Without failed reservations every file is short. */
  lemma FilesShort(j: Journal, c: Counters, stem: string, max: nat, files: map<Path, seq<byte>>, k: nat)
    requires Sound(j, c, stem, max, files) && !j.failed && k < |j.books.chain|
    ensures FileShort(j.books, max, files, k)
  {
    hide Join, Numbered, Spaced;
    var events := j.books.perFile[k];
    assert Short(events, max);
    if events != [] {
      FlattenSnoc(events[..|events| - 1], events[|events| - 1]);
      assert events == events[..|events| - 1] + [events[|events| - 1]];
    }
  }

  lemma AllShort(j: Journal, c: Counters, stem: string, max: nat, files: map<Path, seq<byte>>)
    requires Sound(j, c, stem, max, files) && !j.failed
    ensures forall k :: 0 <= k < |j.books.chain| ==> FileShort(j.books, max, files, k)
  {
    hide Sound, FileShort;
    forall k | 0 <= k < |j.books.chain| ensures FileShort(j.books, max, files, k) {
      FilesShort(j, c, stem, max, files, k);
    }
  }

  lemma BaseNotRotated(stem: string, n: nat)
    ensures BasePath(stem) != RotatedPath(stem, n)
  {
    assert |NatText(n)| > 0;
  }

  /** Names from the counter on are not those of files of the trace. */
  lemma FreeNumber(j: Journal, c: Counters, stem: string, max: nat, files: map<Path, seq<byte>>, n: nat)
    requires Sound(j, c, stem, max, files) && c.nextRotation <= n && c.nextRotation < U32_MAX
    ensures RotatedPath(stem, n) !in j.books.chain
  {
    hide Kept, Spaced, Bounded, RotatedPath, BasePath;
    var p, chain := RotatedPath(stem, n), j.books.chain;
    if p in chain {
      var k :| 0 <= k < |chain| && chain[k] == p;
      BaseNotRotated(stem, n);
      assert chain[k - 1 + 1] == RotatedPath(stem, j.suffixes[k - 1]);
      RotatedPathInjective(stem, n, j.suffixes[k - 1]);
    }
  }

  /** When all the names tried are taken, files outside the trace hold that many numbers in a row. */
  lemma Crowded(j: Journal, c: Counters, stem: string, max: nat, files: map<Path, seq<byte>>)
    requires Sound(j, c, stem, max, files)
    ensures NamesTaken(stem, c.nextRotation, files) && Advance(c.nextRotation, MAX_FILENAME_ATTEMPTS) < U32_MAX ==>
              Block(stem, set p | p in files && p !in j.books.chain)
  {
    hide Sound, RotatedPath;
    SoundFacts(j, c, stem, max, files);
    if NamesTaken(stem, c.nextRotation, files) && Advance(c.nextRotation, MAX_FILENAME_ATTEMPTS) < U32_MAX {
      var others := set p | p in files && p !in j.books.chain;
      forall m: nat | c.nextRotation <= m < c.nextRotation + MAX_FILENAME_ATTEMPTS
        ensures RotatedPath(stem, m) in others
      {
        assert Advance(c.nextRotation, m - c.nextRotation) == m;
        FreeNumber(j, c, stem, max, files, m);
      }
      assert HeldFrom(stem, others, c.nextRotation);
    }
  }

  lemma BlockGrows(stem: string, a: set<Path>, b: set<Path>)
    ensures a <= b && Block(stem, a) ==> Block(stem, b)
  {
    if a <= b && Block(stem, a) {
      var n: nat :| n > 0 && HeldFrom(stem, a, n);
      assert HeldFrom(stem, b, n);
    }
  }

  /** A rollover number that was passed over is held by a file outside the trace. */
  lemma SkippedNumbersHeld(j: Journal, c: Counters, stem: string, max: nat, files: map<Path, seq<byte>>, n: nat)
    requires Sound(j, c, stem, max, files) && 1 <= n < c.nextRotation && n !in j.suffixes
    ensures RotatedPath(stem, n) in files && RotatedPath(stem, n) !in j.books.chain[1..]
    ensures forall a, b :: 0 <= a < b < |j.suffixes| ==> j.suffixes[a] < j.suffixes[b]
  {
    hide Kept, Spaced, Bounded, RotatedPath;
    var p := RotatedPath(stem, n);
    if p in j.books.chain[1..] {
      var k :| 0 <= k < |j.books.chain[1..]| && j.books.chain[1..][k] == p;
      assert j.books.chain[k + 1] == RotatedPath(stem, j.suffixes[k]);
      RotatedPathInjective(stem, n, j.suffixes[k]);
      assert false;
    }
  }

  /** Attempts cost at least the limit in recorded bytes each, so a failing volume is retried that rarely. */
  lemma {:induction false} AttemptsPaidFor(attempts: seq<nat>, recorded: nat, counter: nat, max: nat)
    requires Spaced(attempts, recorded, counter, max)
    ensures |attempts| * max + counter <= recorded
  {
    if attempts == [] {
    } else {
      var n := |attempts| - 1;
      var front := attempts[..n];
      var before := attempts[n];
      var c := if front == [] then before else before - front[n - 1];
      assert Spaced(front, before, c, max);
      AttemptsPaidFor(front, before, c, max);
      assert c >= max;
      assert |attempts| * max == |front| * max + max;
    }
  }

  datatype Step =
    | Emit(payload: seq<byte>, hasLiveEnv: bool, shuttingDown: bool)
    | CloseEnvironment
    | Foreign(path: Path, data: seq<byte>)

  /** The events emitted while the process was not shutting down. */
  ghost function Payloads(steps: seq<Step>): seq<seq<byte>> {
    if steps == [] then []
    else
      var s := steps[|steps| - 1];
      Payloads(steps[..|steps| - 1]) + if s.Emit? && !s.shuttingDown then [s.payload] else []
  }

  /** What may become of a step: an event emitted before shutdown is taken up to some point, or not at all. */
  ghost predicate OutcomeOf(s: Step, o: Option<seq<byte>>) {
    o.Some? ==> s.Emit? && !s.shuttingDown && o.value <= s.payload
  }

  /** Everything taken, in order. */
  ghost function Taken(outcomes: seq<Option<seq<byte>>>): seq<seq<byte>> {
    if outcomes == [] then []
    else
      var o := outcomes[|outcomes| - 1];
      Taken(outcomes[..|outcomes| - 1]) + if o.Some? then [o.value] else []
  }

  /** The event was emitted and not taken whole. */
  ghost predicate IsSpoiled(s: Step, o: Option<seq<byte>>) { s.Emit? && !s.shuttingDown && o != Some(s.payload) }

  ghost function Spoiled(steps: seq<Step>, outcomes: seq<Option<seq<byte>>>): nat
    requires |steps| == |outcomes|
  {
    if steps == [] then 0
    else
      var n := |steps| - 1;
      Spoiled(steps[..n], outcomes[..n]) + if IsSpoiled(steps[n], outcomes[n]) then 1 else 0
  }

  ghost function Foreigners(steps: seq<Step>): set<Path> { set s | s in steps && s.Foreign? :: s.path }

  lemma TakenSnoc(outcomes: seq<Option<seq<byte>>>, o: Option<seq<byte>>)
    ensures Taken(outcomes + [o]) == Taken(outcomes) + if o.Some? then [o.value] else []
  {
    assert (outcomes + [o])[..|outcomes|] == outcomes;
  }

  lemma SpoiledSnoc(steps: seq<Step>, i: nat, outcomes: seq<Option<seq<byte>>>, o: Option<seq<byte>>)
    requires i == |outcomes| < |steps|
    ensures Spoiled(steps[..i + 1], outcomes + [o])
         == Spoiled(steps[..i], outcomes) + if IsSpoiled(steps[i], o) then 1 else 0
  {
    assert steps[..i + 1][..i] == steps[..i] && (outcomes + [o])[..i] == outcomes;
  }

  lemma ForeignersGrow(steps: seq<Step>, i: nat)
    requires i < |steps|
    ensures Foreigners(steps[..i]) <= Foreigners(steps[..i + 1])
    ensures steps[i].Foreign? ==> steps[i].path in Foreigners(steps[..i + 1])
  {
    assert steps[..i + 1] == steps[..i] + [steps[i]];
    assert steps[i] in steps[..i + 1];
  }

  /** Nothing spoiled means everything emitted before shutdown was taken whole. */
  lemma {:induction false} NothingSpoiled(steps: seq<Step>, outcomes: seq<Option<seq<byte>>>)
    requires |steps| == |outcomes| && forall i :: 0 <= i < |steps| ==> OutcomeOf(steps[i], outcomes[i])
    ensures Spoiled(steps, outcomes) == 0 ==> Taken(outcomes) == Payloads(steps)
    decreases |steps|
  {
    if steps != [] {
      NothingSpoiled(steps[..|steps| - 1], outcomes[..|steps| - 1]);
    }
  }

  datatype TraceWriter = Cached | Transient(handle: Handle) | Sink

  class TraceFileWriter {
    const fs: FileSystem
    const stem: string
    const maxFileSize: nat
    var path: Path
    var file: Option<Handle>
    var bytesWritten: nat
    var nextRotation: nat
    ghost var journal: Journal

    ghost function State(): Counters
      reads this`path, this`bytesWritten, this`nextRotation
    {
      Counters(path, bytesWritten, nextRotation)
    }

    ghost predicate Accounted()
      reads this`path, this`bytesWritten, this`nextRotation, this`journal, fs`files
    {
      Sound(journal, State(), stem, maxFileSize, fs.files)
    }

    /** A handle through which writing extends the current file. */
    ghost predicate AtEnd(h: Handle)
      reads this`path, fs`files
    {
      h.path == path && path in fs.files && (h.append || h.pos == |fs.files[path]|)
    }

    /** At most the cached handle is open, and it stands at the end of the current file. */
    ghost predicate Valid()
      reads this`path, this`bytesWritten, this`nextRotation, this`journal, this`file, fs
    {
      && Accounted()
      && (file.None? ==> fs.open == {})
      && (file.Some? ==> fs.open == {path} && AtEnd(file.value))
    }

    /** Starts on a base file that was just created. */
    constructor (fs: FileSystem, stem: string, h: Handle, maxFileSize: nat)
      requires h == Handle(BasePath(stem), false, 0) && maxFileSize <= U64_MAX
      requires h.path in fs.files && fs.files[h.path] == [] && fs.open == {h.path}
      ensures Valid() && this.fs == fs && this.stem == stem && this.maxFileSize == maxFileSize
      ensures journal == Journal(Books([BasePath(stem)], [[]], []), [], 0, [], false)
    {
      this.fs, this.stem, this.maxFileSize := fs, stem, maxFileSize;
      path, file := h.path, Some(h);
      bytesWritten, nextRotation := 0, 1;
      journal := Journal(Books([h.path], [[]], []), [], 0, [], false);
      assert Join([[]]) == [] + Join([]);
    }

    /** Another process creates a file somewhere. */
    method ForeignFile(p: Path, data: seq<byte>)
      requires Valid() && p !in fs.files
      modifies fs`files
      ensures Valid() && fs.files == old(fs.files)[p := data]
    {
      hide Sound;
      SoundForeign(journal, State(), stem, maxFileSize, fs.files, p, data);
      fs.files := fs.files[p := data];
    }

    /** `close`: drops the cached handle. */
    method CloseFile()
      requires Valid()
      modifies this`file, fs`open
      ensures Valid() && file == None
    {
      hide Sound;
      if file.Some? {
        fs.Close(file.value);
        file := None;
      }
    }

    /** `reserve_rotated_trace_file`: the first free number from the counter on, within 100 attempts. A
        number is passed over only when a file holds it; a failed creation leaves it free. */
    method Reserve() returns (r: Option<Handle>, ghost number: nat)
      requires Accounted()
      modifies this`nextRotation, fs`files, fs`open, fs`creationFailures
      ensures old(nextRotation) <= number
      ensures Sound(journal, State().(nextRotation := number), stem, maxFileSize, old(fs.files))
      ensures forall n :: old(nextRotation) <= n < number ==> RotatedPath(stem, n) in old(fs.files)
      ensures r.None? ==> fs.files == old(fs.files) && fs.open == old(fs.open) && nextRotation == number
      ensures fs.creationFailures >= old(fs.creationFailures)
      ensures r.None? <==>
              fs.creationFailures > old(fs.creationFailures) || NamesTaken(stem, old(nextRotation), old(fs.files))
      ensures r.None? ==>
                || fs.creationFailures > old(fs.creationFailures)
                || nextRotation == Advance(old(nextRotation), MAX_FILENAME_ATTEMPTS)
      ensures r.Some? ==>
                && nextRotation == SaturatingNext(number) && r.value == Handle(RotatedPath(stem, number), false, 0)
                && r.value.path !in old(fs.files) && fs.files == old(fs.files)[r.value.path := []]
                && fs.open == old(fs.open) + {r.value.path}
    {
      hide Sound, RotatedPath;
      SoundFacts(journal, State(), stem, maxFileSize, fs.files);
      for i := 0 to MAX_FILENAME_ATTEMPTS
        invariant fs.files == old(fs.files) && fs.open == old(fs.open)
        invariant fs.creationFailures == old(fs.creationFailures)
        invariant forall k: nat :: k < i ==> RotatedPath(stem, Advance(old(nextRotation), k)) in fs.files
        invariant Accounted() && old(nextRotation) <= nextRotation == Advance(old(nextRotation), i)
        invariant forall n :: old(nextRotation) <= n < nextRotation ==> RotatedPath(stem, n) in fs.files
      {
        number := nextRotation;
        var p := RotatedPath(stem, nextRotation);
        var c := fs.CreateNew(p);
        match c {
          case Created(h) =>
            nextRotation := SaturatingNext(nextRotation);
            return Some(h), number;
          case AlreadyExists =>
            SoundFacts(journal, State(), stem, maxFileSize, fs.files);
            SoundSkipped(journal, State(), stem, maxFileSize, fs.files);
            nextRotation := SaturatingNext(nextRotation);
          case CreateFailed =>
            return None, number;
        }
      }
      return None, nextRotation;
    }

    /** Puts a freshly created file in place of the current one, whose handle is dropped. */
    method Switch(h: Handle, ghost rolled: Journal)
      requires Sound(rolled, Counters(h.path, 0, nextRotation), stem, maxFileSize, fs.files)
      requires h.path in fs.files && fs.files[h.path] == [] && h.pos == 0
      requires fs.open == (if file.Some? then {file.value.path, h.path} else {h.path})
      requires file.Some? ==> file.value.path != h.path
      modifies this`file, this`path, this`bytesWritten, this`journal, fs`open
      ensures Valid() && file == Some(h) && path == h.path && bytesWritten == 0 && journal == rolled
    {
      hide Sound;
      if file.Some? {
        fs.Close(file.value);
      }
      file, path, bytesWritten, journal := Some(h), h.path, 0, rolled;
    }

    /** Files outside the trace. */
    ghost function Others(): set<Path>
      reads this`journal, fs`files
    {
      set p | p in fs.files && p !in journal.books.chain
    }

    /** A roll over has failed only for a failed creation, or because all the names tried were taken. */
    twostate predicate Excused()
      reads this, fs
    {
      && fs.creationFailures >= old(fs.creationFailures) && nextRotation >= old(nextRotation)
      && (journal.failed && !old(journal.failed) ==>
            || fs.creationFailures > old(fs.creationFailures)
            || (&& NamesTaken(stem, old(nextRotation), old(fs.files))
                && nextRotation >= Advance(old(nextRotation), MAX_FILENAME_ATTEMPTS)))
    }

    /** `rotate_if_needed`: rolls over once the counter has reached the limit. */
    method RotateIfNeeded() returns (ghost number: nat)
      requires Valid()
      modifies this, fs`files, fs`open, fs`creationFailures
      ensures Valid() && journal.books.events == old(journal.books.events) && Ready(journal, State(), maxFileSize)
      ensures old(bytesWritten) < maxFileSize ==> unchanged(this) && unchanged(fs)
      ensures (old(file).Some? ==> file.Some?) && fs.creationFailures >= old(fs.creationFailures)
      ensures journal.failed <==>
              || old(journal.failed)
              || (&& old(bytesWritten) >= maxFileSize
                  && (|| fs.creationFailures > old(fs.creationFailures)
                      || NamesTaken(stem, old(nextRotation), old(fs.files))))
      ensures Excused() && Others() == old(Others())
      ensures old(bytesWritten) >= maxFileSize ==>
                bytesWritten == 0 && journal.attempts == old(Attempted(journal).attempts)
      ensures
        || journal == old(journal)
        || journal == Attempted(old(journal)).(failed := true)
        || (&& number >= old(nextRotation) && path == RotatedPath(stem, number)
            && journal == RolledOver(old(journal), path, number))
    {
      hide Sound, RotatedPath, NamesTaken;
      if bytesWritten < maxFileSize {
        return 0;
      }
      ghost var c, before := State(), fs.files;
      SoundFacts(journal, c, stem, maxFileSize, before);
      var r;
      r, number := Reserve();
      c := c.(nextRotation := number);
      if r.Some? {
        SoundRolledOver(journal, c, stem, maxFileSize, before);
        Switch(r.value, RolledOver(journal, r.value.path, number));
      } else {
        SoundAttemptFailed(journal, c, stem, maxFileSize, before);
        bytesWritten := 0;
        journal := Attempted(journal).(failed := true);
      }
    }

    /** `make_writer_for_env_state`: rolls over if due, then picks the handle the event goes to. */
    method MakeWriter(hasLiveEnv: bool) returns (w: TraceWriter)
      requires Valid()
      modifies this, fs
      ensures Accounted() && journal.books.events == old(journal.books.events) && Ready(journal, State(), maxFileSize)
      ensures w.Cached? ==> Valid() && file.Some? && hasLiveEnv
      ensures w.Transient? ==> file == None && fs.open == {path} && AtEnd(w.handle) && w.handle.append && !hasLiveEnv
      ensures w.Sink? ==> Valid() && file == None
      ensures fs.failures == old(fs.failures) + if w.Sink? then 1 else 0
      ensures (hasLiveEnv && old(file).Some? ==> w.Cached?) && Excused() && Others() == old(Others())
    {
      hide Sound, RotatedPath, NamesTaken;
      ghost var _ := RotateIfNeeded();
      if !hasLiveEnv {
        CloseFile();
        var h := fs.OpenAppend(path);
        return if h.Some? then Transient(h.value) else Sink;
      }
      if file.None? {
        var h := fs.OpenAppend(path);
        if h.None? {
          return Sink;
        }
        file := h;
      }
      return Cached;
    }

    /** `record_written`, saturating. */
    method RecordWritten(n: nat, ghost before: map<Path, seq<byte>>, ghost data: seq<byte>)
      requires n == |data| && path in before && fs.files == before[path := before[path] + data]
      requires Sound(journal, State(), stem, maxFileSize, before) && |journal.books.perFile| >= 1
      requires Current(journal.books) != []
      modifies this`bytesWritten, this`journal
      ensures Accounted() && bytesWritten == Min64(old(bytesWritten) + n)
      ensures journal == Accepted(old(journal), data)
      ensures |journal.books.perFile| >= 1 && Current(journal.books) != [] && old(journal.books.events) != []
      ensures journal.books.events == GrowLast(old(journal.books.events), data)
      ensures journal.books.chain == old(journal.books.chain)
    {
      hide Sound, Extended, Current;
      SoundAccepted(journal, State(), stem, maxFileSize, before, data);
      journal := Accepted(journal, data);
      bytesWritten := Min64(bytesWritten + n);
    }

    /** `write_all` through a handle that stands at the end of the current file: partial writes are
        continued, and what was accepted when a write fails stays accepted. */
    method WriteAll(h: Handle, payload: seq<byte>, ghost earlier: seq<seq<byte>>)
      returns (ok: bool, after: Handle, ghost taken: seq<byte>)
      requires Accounted() && |journal.books.perFile| >= 1 && Current(journal.books) != []
      requires AtEnd(h) && path in fs.open && journal.books.events == earlier + [[]]
      modifies this`bytesWritten, this`journal, fs`files, fs`failures
      ensures Accounted() && AtEnd(after)
      ensures taken <= payload && (ok <==> taken == payload)
      ensures fs.files.Keys == old(fs.files.Keys) && journal.books.chain == old(journal.books.chain)
      ensures journal.failed == old(journal.failed)
      ensures fs.failures == old(fs.failures) + if ok then 0 else 1
      ensures journal.books.events == earlier + [taken] && journal.recorded == old(journal.recorded) + |taken|
    {
      hide Sound, Extended, Current, GrowLast, Overwrite;
      after, taken := h, [];
      var done := 0;
      while done < |payload|
        invariant done == |taken| <= |payload| && taken == payload[..done]
        invariant Accounted() && |journal.books.perFile| >= 1 && Current(journal.books) != [] && AtEnd(after)
        invariant fs.failures == old(fs.failures) && fs.files.Keys == old(fs.files.Keys)
        invariant journal.books.chain == old(journal.books.chain) && journal.failed == old(journal.failed)
        invariant journal.books.events == earlier + [taken] && journal.recorded == old(journal.recorded) + done
        decreases |payload| - done
      {
        ghost var before := fs.files;
        var n;
        n, after := fs.Write(after, payload[done..]);
        if n.None? {
          return false, after, taken;
        }
        ghost var data := payload[done..][..n.value];
        OverwriteEnd(before[path], data);
        RecordWritten(n.value, before, data);
        GrowSnoc(earlier, taken, data);
        taken := taken + data;
        done := done + n.value;
      }
      return true, after, taken;
    }

    /** One event: a handle is picked, then `write_all`; a transient handle is dropped afterwards. `accepted`
        is what was taken of the event, nothing when it went to the sink. */
    method WriteEvent(payload: seq<byte>, hasLiveEnv: bool, shuttingDown: bool)
      returns (ok: bool, ghost accepted: Option<seq<byte>>)
      requires Valid()
      modifies this, fs
      ensures Valid()
      ensures accepted.None? ==> ok && journal.books.events == old(journal.books.events)
      ensures accepted.Some? ==>
                && accepted.value <= payload && (ok <==> accepted.value == payload)
                && journal.books.events == old(journal.books.events) + [accepted.value]
      ensures !hasLiveEnv && !shuttingDown ==> file == None
      ensures shuttingDown ==> accepted == None
      ensures fs.failures == old(fs.failures) + if shuttingDown || accepted == Some(payload) then 0 else 1
      ensures Excused() && Others() == old(Others())
    {
      hide Sound, Begun, Current, NamesTaken;
      if shuttingDown {
        return true, None;
      }
      var w := MakeWriter(hasLiveEnv);
      if w.Sink? {
        return true, None;
      }
      ghost var earlier := journal.books.events;
      SoundFacts(journal, State(), stem, maxFileSize, fs.files);
      SoundBegun(journal, State(), stem, maxFileSize, fs.files);
      journal := Begun(journal);
      var h;
      ghost var taken;
      if w.Cached? {
        ok, h, taken := WriteAll(file.value, payload, earlier);
        file := Some(h);
      } else {
        ok, h, taken := WriteAll(w.handle, payload, earlier);
        fs.Close(h);
      }
      accepted := Some(taken);
    }

    /** Any run of events, closes, environment changes, failures and foreign files. Each emitted event is taken
        whole, up to a failure, or not at all; the files hold exactly what was taken, in order; and exactly as
        many events are lost or cut as openings and writes failed. A failed roll over costs no event. Unless a
        creation fails or foreign files hold as many numbers in a row as a reservation tries, no roll over
        fails, and every file stays short. */
    method Run(steps: seq<Step>) returns (ghost outcomes: seq<Option<seq<byte>>>)
      requires Valid()
      modifies this, fs
      ensures Valid() && |outcomes| == |steps|
      ensures forall i :: 0 <= i < |steps| ==> OutcomeOf(steps[i], outcomes[i])
      ensures journal.books.events == old(journal.books.events) + Taken(outcomes)
      ensures fs.failures == old(fs.failures) + Spoiled(steps, outcomes)
      ensures fs.failures == old(fs.failures) ==> Taken(outcomes) == Payloads(steps)
      ensures forall k :: 0 <= k < |journal.books.chain| ==> journal.books.chain[k] in fs.files
      ensures Flatten(Contents(journal.books.chain, fs.files))
           == Flatten(old(journal.books.events)) + Flatten(Taken(outcomes))
      ensures !old(journal.failed) && fs.creationFailures == old(fs.creationFailures) && nextRotation < U32_MAX
              && !Block(stem, old(Others()) + Foreigners(steps)) ==>
                && !journal.failed
                && forall k :: 0 <= k < |journal.books.chain| ==> FileShort(journal.books, maxFileSize, fs.files, k)
    {
      hide Sound, Kept, RotatedPath, Block;
      outcomes := [];
      for i := 0 to |steps|
        invariant Valid() && |outcomes| == i && forall k :: 0 <= k < i ==> OutcomeOf(steps[k], outcomes[k])
        invariant journal.books.events == old(journal.books.events) + Taken(outcomes)
        invariant fs.failures == old(fs.failures) + Spoiled(steps[..i], outcomes)
        invariant fs.creationFailures >= old(fs.creationFailures)
        invariant Others() <= old(Others()) + Foreigners(steps[..i])
        invariant journal.failed && !old(journal.failed) ==>
                    || fs.creationFailures > old(fs.creationFailures) || nextRotation >= U32_MAX
                    || Block(stem, old(Others()) + Foreigners(steps[..i]))
      {
        ghost var outcome: Option<seq<byte>> := None;
        Crowded(journal, State(), stem, maxFileSize, fs.files);
        ForeignersGrow(steps, i);
        BlockGrows(stem, Others(), old(Others()) + Foreigners(steps[..i + 1]));
        BlockGrows(stem, old(Others()) + Foreigners(steps[..i]), old(Others()) + Foreigners(steps[..i + 1]));
        match steps[i] {
          case Emit(payload, hasLiveEnv, shuttingDown) =>
            var ok;
            ok, outcome := WriteEvent(payload, hasLiveEnv, shuttingDown);
          case CloseEnvironment => CloseFile();
          case Foreign(p, data) =>
            if p !in fs.files {
              ForeignFile(p, data);
            }
        }
        TakenSnoc(outcomes, outcome);
        SpoiledSnoc(steps, i, outcomes, outcome);
        outcomes := outcomes + [outcome];
      }
      assert steps[..|steps|] == steps;
      NothingSpoiled(steps, outcomes);
      SoundFacts(journal, State(), stem, maxFileSize, fs.files);
      FilesAreEvents(journal.books, fs.files);
      FlattenAppend(old(journal.books.events), Taken(outcomes));
      if !journal.failed {
        AllShort(journal, State(), stem, maxFileSize, fs.files);
      }
    }
  }
}
