/**
 The archive loop (internal/collector/loop.go): back-fill, stream, seal on rotation, save the position, and
 retry or recover. The server's history is fixed; the loop sees ever longer prefixes of it. Every failing
 call of the environment is a free choice.
 */
module Collector {
  import opened Base
  import opened Archive

  // history[k] is file k's events: its format description, then data with rising end positions. Every file
  // but the last also ends, on the server, in a rotate to the next.
  type History = seq<seq<Event>>

  type Files = map<nat, seq<Event>>

  datatype Position = Position(file: nat, pos: nat)

  const MAGIC_END := 4

  function End(e: Event): nat {
    if e.Rotate? then 0 else e.end
  }

  predicate ValidFile(k: nat, es: seq<Event>) {
    es != [] && es[0].Fde? && (forall i :: 0 <= i < |es| ==> !es[i].Rotate? && es[i].file == k && es[i].end > 4)
    && (forall i :: 1 <= i < |es| ==> es[i].Data?)
    && (forall i, j :: 0 <= i < j < |es| ==> es[i].end < es[j].end)
  }

  predicate ValidHistory(h: History) {
    forall k :: 0 <= k < |h| ==> ValidFile(k, h[k])
  }

  // The events ending no later than position p.
  function UpTo(es: seq<Event>, p: nat): (r: seq<Event>)
    ensures r <= es
  {
    if es == [] || End(es[0]) > p then [] else [es[0]] + UpTo(es[1..], p)
  }

  // The data events a stream from position p still delivers.
  function Pending(h: History, k: nat, p: nat): seq<Event>
    requires k < |h| && h[k] != []
  {
    var done := UpTo(h[k], p);
    h[k][if done == [] then 1 else |done|..]
  }

  predicate HasNext(h: History, k: nat) {
    k + 1 < |h|
  }

  function Trailer(h: History, k: nat): seq<Event> {
    if HasNext(h, k) then [Rotate(k + 1)] else []
  }

  // What the server streams from a position: announcement, format description, the rest, the rotate.
  function SourceStream(h: History, pos: Position): seq<Event>
    requires pos.file < |h| && h[pos.file] != []
  {
    [Rotate(pos.file), h[pos.file][0]] + Pending(h, pos.file, pos.pos) + Trailer(h, pos.file)
  }

  function WholeCopy(h: History, k: nat): seq<Event>
    requires k < |h|
  {
    h[k] + Trailer(h, k)
  }

  // ---------- what one synchronisation does to the archive ----------

  datatype Effect = Untouched | EmptyTail | Sealed | Appended | Recovered | CopyLost

  // next is the file the loop goes on with, if it advanced.
  ghost predicate SyncStep(h: History, files: Files, pos: Position, files': Files, next: Option<nat>, effect: Effect)
    requires pos.file < |h| && h[pos.file] != []
  {
    var k, tail := pos.file, Pending(h, pos.file, pos.pos);
    (effect.Untouched? || HasNext(h, k)) &&
    (next == None || next == Some(k + 1)) &&
    match effect
    case Untouched => files' == files && next == None
    case EmptyTail => k in files && tail == [] && files' == files && next == Some(k + 1)
    case Sealed => k !in files && files' == files[k := [h[k][0]] + tail] && next == Some(k + 1)
    case Appended => k in files && tail != [] &&
      files' == (if AlreadyAppended(files[k], tail) then files else files[k := files[k] + tail])
    case Recovered => files' == files[k := WholeCopy(h, k)] && next == Some(k + 1)
    case CopyLost => files' == files - {k} && next == None
  }

  // ---------- the invariant ----------

  function NonRotate(es: seq<Event>): seq<Event> {
    Filter((e: Event) => !e.Rotate?, es)
  }

  // Earlier files hold every event once and in order, later ones are absent, and the current one is the
  // prefix up to the resume position, absent if that is empty; or it is complete already.
  predicate Archived(h: History, files: Files, pos: Position) {
    && pos.file < |h|
    && (forall j :: 0 <= j < pos.file ==> j in files && NonRotate(files[j]) == h[j])
    && (forall j :: j in files ==> j <= pos.file)
    && (var prefix := UpTo(h[pos.file], pos.pos);
      if pos.file in files then files[pos.file] == h[pos.file] || (prefix != [] && files[pos.file] == prefix)
      else prefix == [])
  }

  function Next(pos: Position, next: Option<nat>): Position {
    match next case None => pos case Some(k) => Position(k, 0)
  }

  lemma {:induction false} NonRotateOf(es: seq<Event>, trailer: seq<Event>)
    requires forall i :: 0 <= i < |es| ==> !es[i].Rotate?
    requires forall i :: 0 <= i < |trailer| ==> trailer[i].Rotate?
    ensures NonRotate(es + trailer) == es
  {
    if es != [] {
      assert (es + trailer)[1..] == es[1..] + trailer && (es + trailer)[0] == es[0];
      NonRotateOf(es[1..], trailer);
    } else {
      assert es + trailer == trailer;
      if trailer != [] { NonRotateOf([], trailer[1..]); assert [] + trailer[1..] == trailer[1..]; }
    }
  }

  // The part of a file that is there before its pending tail.
  function Head(h: History, k: nat, p: nat): seq<Event>
    requires k < |h| && h[k] != []
  {
    if UpTo(h[k], p) == [] then [h[k][0]] else UpTo(h[k], p)
  }

  lemma HeadAndTail(h: History, k: nat, p: nat)
    requires k < |h| && ValidFile(k, h[k])
    ensures h[k] == Head(h, k, p) + Pending(h, k, p)
    ensures forall e :: e in Head(h, k, p) ==> e !in Pending(h, k, p)
  {
    assert h[k] == Head(h, k, p) + Pending(h, k, p);
    EndsApart(Head(h, k, p), Pending(h, k, p));
  }

  // Events with rising ends are told apart by them.
  lemma EndsApart(a: seq<Event>, b: seq<Event>)
    requires forall i, j :: 0 <= i < j < |a + b| ==> End((a + b)[i]) < End((a + b)[j])
    ensures forall e :: e in a ==> e !in b
  {
    forall i, j | 0 <= i < |a| && 0 <= j < |b| ensures a[i] != b[j] {
      assert (a + b)[i] == a[i] && (a + b)[|a| + j] == b[j];
    }
  }

  lemma PendingCompletes(h: History, k: nat, p: nat)
    requires k < |h| && ValidFile(k, h[k]) && Pending(h, k, p) != []
    ensures AlreadyAppended(h[k], Pending(h, k, p))
    ensures !AlreadyAppended(Head(h, k, p), Pending(h, k, p))
  {
    HeadAndTail(h, k, p);
    SkipsExactlyTheAppended(Head(h, k, p), Pending(h, k, p));
  }

  // A file completed, with or without its rotate, keeps the archive right whether or not the loop moves on.
  lemma CompletedKeeps(h: History, files: Files, pos: Position, file: seq<Event>, next: Option<nat>)
    requires ValidHistory(h) && Archived(h, files, pos) && HasNext(h, pos.file)
    requires file == h[pos.file] || (file == WholeCopy(h, pos.file) && next.Some?)
    requires next == None || next == Some(pos.file + 1)
    ensures Archived(h, files[pos.file := file], Next(pos, next))
  {
    var k := pos.file;
    assert ValidFile(k, h[k]) && ValidFile(k + 1, h[k + 1]);
    NonRotateOf(h[k], []);
    NonRotateOf(h[k], Trailer(h, k));
    assert h[k] + [] == h[k];
    assert UpTo(h[k + 1], 0) == [];
  }

  // What is archived of the current file, completed by its pending tail unless that is there already.
  lemma TailCompletes(h: History, files: Files, pos: Position)
    requires ValidHistory(h) && Archived(h, files, pos) && pos.file in files
    ensures var tail := Pending(h, pos.file, pos.pos);
      (if tail == [] || AlreadyAppended(files[pos.file], tail) then files[pos.file] else files[pos.file] + tail) == h[pos.file]
  {
    var k, tail := pos.file, Pending(h, pos.file, pos.pos);
    HeadAndTail(h, k, pos.pos);
    if tail != [] {
      PendingCompletes(h, k, pos.pos);
    } else {
      assert Head(h, k, pos.pos) + [] == Head(h, k, pos.pos);
    }
  }

  lemma EmptyTailKeeps(h: History, files: Files, pos: Position)
    requires ValidHistory(h) && Archived(h, files, pos) && HasNext(h, pos.file)
    requires pos.file in files && Pending(h, pos.file, pos.pos) == []
    ensures Archived(h, files, Position(pos.file + 1, 0))
  {
    var k := pos.file;
    TailCompletes(h, files, pos);
    CompletedKeeps(h, files, pos, h[k], Some(k + 1));
    assert files[k := h[k]] == files;
  }

  lemma AppendedKeeps(h: History, files: Files, pos: Position, next: Option<nat>)
    requires ValidHistory(h) && Archived(h, files, pos) && HasNext(h, pos.file)
    requires pos.file in files && Pending(h, pos.file, pos.pos) != [] && (next == None || next == Some(pos.file + 1))
    ensures var k, tail := pos.file, Pending(h, pos.file, pos.pos);
      Archived(h, if AlreadyAppended(files[k], tail) then files else files[k := files[k] + tail], Next(pos, next))
  {
    var k := pos.file;
    TailCompletes(h, files, pos);
    CompletedKeeps(h, files, pos, h[k], next);
    assert files[k] == h[k] ==> files[k := h[k]] == files;
  }

  lemma SealedKeeps(h: History, files: Files, pos: Position)
    requires ValidHistory(h) && Archived(h, files, pos) && HasNext(h, pos.file) && pos.file !in files
    ensures Archived(h, files[pos.file := [h[pos.file][0]] + Pending(h, pos.file, pos.pos)], Position(pos.file + 1, 0))
  {
    HeadAndTail(h, pos.file, pos.pos);
    CompletedKeeps(h, files, pos, h[pos.file], Some(pos.file + 1));
  }

  /** Every synchronisation keeps the archive right, and the next file starts absent; a recovery copy that
      fails after the archived file was removed does so exactly when nothing of that file lay before the
      resume position. */
  lemma StepKeepsArchivedIff(h: History, files: Files, pos: Position, files': Files, next: Option<nat>, effect: Effect)
    requires ValidHistory(h) && Archived(h, files, pos)
    requires SyncStep(h, files, pos, files', next, effect)
    ensures Archived(h, files', Next(pos, next)) <==> (effect.CopyLost? ==> UpTo(h[pos.file], pos.pos) == [])
  {
    match effect
    case Untouched =>
    case EmptyTail => EmptyTailKeeps(h, files, pos);
    case Sealed => SealedKeeps(h, files, pos);
    case Appended => AppendedKeeps(h, files, pos, next);
    case Recovered => CompletedKeeps(h, files, pos, WholeCopy(h, pos.file), next);
    case CopyLost =>
  }

  // The crash window: the file is in the archive, sealed or copied whole, and its position was not saved.
  predicate InWindow(h: History, files: Files, k: nat)
    requires k < |h|
  {
    k in files && (files[k] == h[k] || files[k] == WholeCopy(h, k))
  }

  lemma CopyHidesTail(h: History, k: nat, p: nat)
    requires k < |h| && ValidFile(k, h[k]) && HasNext(h, k) && Pending(h, k, p) != []
    ensures !AlreadyAppended(WholeCopy(h, k), Pending(h, k, p))
  {
    var tail, copy := Pending(h, k, p), WholeCopy(h, k);
    HeadAndTail(h, k, p);
    assert copy[|copy| - 1] == Rotate(k + 1);
    assert tail[|tail| - 1] == h[k][|h[k]| - 1];
    assert |tail| <= |copy| ==> copy[|copy| - |tail|..][|tail| - 1] == copy[|copy| - 1];
  }

  /** Synchronising again from the old position, a step that advances without a new copy leaves the archived
      file as it is exactly when the file was sealed from the stream or nothing of it is pending: a file
      copied whole ends in its rotate, so the check for an appended tail misses it. */
  lemma ResealingIff(h: History, files: Files, pos: Position, files': Files, next: Option<nat>, effect: Effect)
    requires ValidHistory(h) && pos.file < |h| && InWindow(h, files, pos.file)
    requires SyncStep(h, files, pos, files', next, effect) && next.Some? && !effect.Recovered?
    ensures files' == files <==> files[pos.file] == h[pos.file] || Pending(h, pos.file, pos.pos) == []
  {
    var k, tail := pos.file, Pending(h, pos.file, pos.pos);
    assert h[k] != WholeCopy(h, k) by { assert |WholeCopy(h, k)| == |h[k]| + 1; }
    if tail != [] {
      PendingCompletes(h, k, pos.pos);
      CopyHidesTail(h, k, pos.pos);
      assert files[k] + tail != files[k] by { assert |files[k] + tail| > |files[k]|; }
      if files[k] != h[k] { assert files'[k] == files[k] + tail; }
    }
  }

  // ---------- whole runs, failed recovery copies included ----------

  // Every file but the one the run started in is right. The starting file is right too unless lost; then it
  // is absent while current, and later holds its format description and what came after the start, or all.
  predicate Held(h: History, files: Files, start: Position, pos: Position, lost: bool) {
    if !lost then Archived(h, files, pos)
    else
      && start.file <= pos.file < |h| && h[start.file] != []
      && (forall j :: 0 <= j < pos.file && j != start.file ==> j in files && NonRotate(files[j]) == h[j])
      && (forall j :: j in files ==> j <= pos.file)
      && (if pos.file == start.file then start.file !in files && pos == start
        else
          (start.file in files && (NonRotate(files[start.file]) == h[start.file]
            || files[start.file] == [h[start.file][0]] + Pending(h, start.file, start.pos)))
          && pos.pos == 0 && (pos.file in files ==> files[pos.file] == h[pos.file]))
  }

  // How a step changes whether the start is lost: only a failed copy in the starting file, over a non-empty prefix.
  predicate LosesStart(h: History, start: Position, pos: Position, effect: Effect)
    requires start.file < |h|
  {
    effect.CopyLost? && pos.file == start.file && UpTo(h[start.file], start.pos) != []
  }

  lemma LostAtStart(h: History, files: Files, start: Position, files': Files, next: Option<nat>, effect: Effect)
    requires ValidHistory(h) && Held(h, files, start, start, true)
    requires SyncStep(h, files, start, files', next, effect)
    ensures Held(h, files', start, Next(start, next), true)
  {
    NonRotateOf(h[start.file], Trailer(h, start.file));
    assert HasNext(h, start.file) ==> ValidFile(start.file + 1, h[start.file + 1]);
  }

  // Past the starting file, an archive that lost its start is right once the start is put back.
  lemma Mended(h: History, files: Files, start: Position, pos: Position)
    requires ValidHistory(h) && Held(h, files, start, pos, true) && start.file < pos.file
    ensures Archived(h, files[start.file := h[start.file]], pos)
  {
    NonRotateOf(h[start.file], []);
    assert h[start.file] + [] == h[start.file];
    assert ValidFile(pos.file, h[pos.file]) && UpTo(h[pos.file], 0) == [];
  }

  lemma Unmended(h: History, files: Files, start: Position, pos: Position)
    requires start.file < pos.file < |h| && pos.pos == 0 && ValidHistory(h)
    requires Archived(h, files[start.file := h[start.file]], pos)
    requires start.file in files && (NonRotate(files[start.file]) == h[start.file]
      || files[start.file] == [h[start.file][0]] + Pending(h, start.file, start.pos))
    ensures Held(h, files, start, pos, true)
  {
    var mended := files[start.file := h[start.file]];
    assert forall j :: j != start.file ==> (j in files <==> j in mended) && (j in files ==> files[j] == mended[j]);
    assert ValidFile(pos.file, h[pos.file]) && UpTo(h[pos.file], 0) == [];
  }

  lemma MendedStep(h: History, files: Files, k: nat, file: seq<Event>, pos: Position, files': Files, next: Option<nat>, effect: Effect)
    requires pos.file < |h| && h[pos.file] != [] && k != pos.file
    requires SyncStep(h, files, pos, files', next, effect)
    ensures SyncStep(h, files[k := file], pos, files'[k := file], next, effect)
    ensures (k in files' <==> k in files) && (k in files ==> files'[k] == files[k])
  {
  }

  lemma LostBefore(h: History, files: Files, start: Position, pos: Position, files': Files, next: Option<nat>, effect: Effect)
    requires ValidHistory(h) && Held(h, files, start, pos, true) && start.file < pos.file
    requires SyncStep(h, files, pos, files', next, effect)
    ensures Held(h, files', start, Next(pos, next), true)
  {
    var k := start.file;
    Mended(h, files, start, pos);
    MendedStep(h, files, k, h[k], pos, files', next, effect);
    assert ValidFile(pos.file, h[pos.file]) && UpTo(h[pos.file], pos.pos) == [];
    StepKeepsArchivedIff(h, files[k := h[k]], pos, files'[k := h[k]], next, effect);
    Unmended(h, files', start, Next(pos, next));
  }

  lemma StepKeepsHeld(h: History, files: Files, start: Position, pos: Position, lost: bool, files': Files, next: Option<nat>, effect: Effect)
    requires ValidHistory(h) && start.file < |h| && Held(h, files, start, pos, lost)
    requires pos == start || (start.file < pos.file && pos.pos == 0)
    requires SyncStep(h, files, pos, files', next, effect)
    ensures Held(h, files', start, Next(pos, next), lost || LosesStart(h, start, pos, effect))
  {
    if lost {
      if pos == start { LostAtStart(h, files, start, files', next, effect); }
      else { LostBefore(h, files, start, pos, files', next, effect); }
    } else {
      StepKeepsArchivedIff(h, files, pos, files', next, effect);
      if pos.file != start.file { assert ValidFile(pos.file, h[pos.file]) && UpTo(h[pos.file], 0) == []; }
    }
  }

  // Some synchronisation leads from one archive and position to the next.
  ghost predicate SyncedOnce(h: History, files: Files, pos: Position, files': Files, pos': Position, effect: Effect) {
    pos.file < |h| && h[pos.file] != [] &&
    exists next: Option<nat> :: SyncStep(h, files, pos, files', next, effect) && pos' == Next(pos, next)
  }

  ghost predicate Run(h: History, files: seq<Files>, positions: seq<Position>, effects: seq<Effect>) {
    |files| == |positions| == |effects| + 1 && Archived(h, files[0], positions[0]) &&
    forall i :: 0 <= i < |effects| ==> SyncedOnce(h, files[i], positions[i], files[i + 1], positions[i + 1], effects[i])
  }

  // Some recovery copy of the first n steps lost the prefix of the starting file.
  predicate StartLost(h: History, positions: seq<Position>, effects: seq<Effect>, n: nat)
    requires n <= |effects| < |positions| && positions[0].file < |h|
  {
    exists i :: 0 <= i < n && LosesStart(h, positions[0], positions[i], effects[i])
  }

  lemma {:induction false} RunPositions(h: History, files: seq<Files>, positions: seq<Position>, effects: seq<Effect>, n: nat)
    requires Run(h, files, positions, effects) && n < |files|
    ensures positions[n] == positions[0] || (positions[0].file < positions[n].file && positions[n].pos == 0)
  {
    if n > 0 {
      RunPositions(h, files, positions, effects, n - 1);
      assert SyncedOnce(h, files[n - 1], positions[n - 1], files[n - 1 + 1], positions[n - 1 + 1], effects[n - 1]);
    }
  }

  lemma LostOneMore(h: History, positions: seq<Position>, effects: seq<Effect>, n: nat)
    requires n < |effects| < |positions| && positions[0].file < |h|
    ensures StartLost(h, positions, effects, n + 1)
      <==> StartLost(h, positions, effects, n) || LosesStart(h, positions[0], positions[n], effects[n])
  {
    if StartLost(h, positions, effects, n + 1) {
      var i :| 0 <= i < n + 1 && LosesStart(h, positions[0], positions[i], effects[i]);
      assert i < n || i == n;
    }
  }

  /** Under any sequence of source, seal, recovery and state-write failures: at every point of a run each file
      already passed is archived with all its events exactly once and in order, the current one is absent,
      its right prefix or complete, and later ones are absent. Only the file the run started in can lose its
      back-filled prefix, and only to a recovery copy that failed. */
  lemma {:induction false} RunStaysArchived(h: History, files: seq<Files>, positions: seq<Position>, effects: seq<Effect>, n: nat)
    requires ValidHistory(h) && Run(h, files, positions, effects) && n < |files|
    ensures Held(h, files[n], positions[0], positions[n], StartLost(h, positions, effects, n))
  {
    if n > 0 {
      RunStaysArchived(h, files, positions, effects, n - 1);
      RunPositions(h, files, positions, effects, n - 1);
      assert SyncedOnce(h, files[n - 1], positions[n - 1], files[n - 1 + 1], positions[n - 1 + 1], effects[n - 1]);
      var next: Option<nat> :| SyncStep(h, files[n - 1], positions[n - 1], files[n], next, effects[n - 1])
        && positions[n] == Next(positions[n - 1], next);
      StepKeepsHeld(h, files[n - 1], positions[0], positions[n - 1], StartLost(h, positions, effects, n - 1), files[n], next, effects[n - 1]);
      LostOneMore(h, positions, effects, n - 1);
    }
  }

  // ---------- what the loop makes of a stream ----------

  datatype Preamble = First(rest: seq<Event>) | EmptyRotation(next: nat) | Nothing

  // Drops announcements of the current file and format descriptions from the front of a stream.
  function SkipPreamble(stream: seq<Event>, current: nat): Preamble {
    if stream == [] then Nothing
    else match stream[0]
      case Rotate(next) => if next != current then EmptyRotation(next) else SkipPreamble(stream[1..], current)
      case Fde(_, _) => SkipPreamble(stream[1..], current)
      case Data(_, _, _) => First(stream)
  }

  lemma {:induction false} SegmentOf(a: seq<Event>, b: seq<Event>)
    requires forall i :: 0 <= i < |a| ==> !a[i].Rotate?
    ensures Segment(a + b) == a + Segment(b) && AfterSegment(a + b) == AfterSegment(b)
  {
    if a == [] {
      assert a + b == b;
    } else {
      SegmentOf(a[1..], b);
      assert (a + b)[1..] == a[1..] + b && (a + b)[0] == a[0];
    }
  }

  // A prefix of events and trailer that contains a rotate is all of it.
  lemma CutSegment(es: seq<Event>, trailer: seq<Event>, n: nat)
    requires forall i :: 0 <= i < |es| ==> !es[i].Rotate?
    requires |trailer| <= 1 && (trailer != [] ==> trailer[0].Rotate?) && n <= |es + trailer|
    ensures var s := (es + trailer)[..n];
      AfterSegment(s) != [] ==> trailer != [] && Segment(s) == es && AfterSegment(s) == trailer
  {
    var s := (es + trailer)[..n];
    if n <= |es| {
      assert s == es[..n] + [];
      SegmentOf(es[..n], []);
    } else {
      assert s == es + trailer;
      SegmentOf(es, trailer);
    }
  }

  lemma CutShape(a: Event, b: Event, tail: seq<Event>, trailer: seq<Event>, n: nat)
    requires n <= 2 + |tail| + |trailer|
    ensures var s := ([a, b] + tail + trailer)[..n];
      (n >= 1 ==> s == [a] + (([b] + tail) + trailer)[..n - 1]) && (n >= 2 ==> s == [a, b] + (tail + trailer)[..n - 2])
  {
  }

  lemma LeadingRotate(next: nat, rest: seq<Event>)
    requires rest != [] ==> !rest[0].Rotate?
    ensures Body([Rotate(next)] + rest) == rest && forall name :: Announced([Rotate(next)] + rest, name) == next
  {
    assert ([Rotate(next)] + rest)[1..] == rest;
  }

  lemma CutStreamConsumed(h: History, pos: Position, n: nat)
    requires ValidHistory(h) && pos.file < |h| && n <= |SourceStream(h, pos)|
    ensures var s := SourceStream(h, pos)[..n];
      AfterSegment(Body(s)) != [] ==>
        HasNext(h, pos.file) && AfterSegment(Body(s)) == [Rotate(pos.file + 1)]
        && Segment(Body(s)) == [h[pos.file][0]] + Pending(h, pos.file, pos.pos)
        && forall name :: Announced(s, name) == pos.file
  {
    var k := pos.file;
    assert ValidFile(k, h[k]);
    var es, trailer := [h[k][0]] + Pending(h, k, pos.pos), Trailer(h, k);
    CutShape(Rotate(k), h[k][0], Pending(h, k, pos.pos), trailer, n);
    if n >= 1 {
      var rest := (es + trailer)[..n - 1];
      assert rest != [] ==> rest[0] == es[0];
      LeadingRotate(k, rest);
      CutSegment(es, trailer, n - 1);
    }
  }

  lemma SkipTwo(k: nat, fde: Event, rest: seq<Event>)
    requires fde.Fde?
    ensures SkipPreamble([Rotate(k), fde] + rest, k) == SkipPreamble(rest, k)
  {
    var s := [Rotate(k), fde] + rest;
    assert s[1..] == [fde] + rest;
    assert s[1..][1..] == rest;
  }

  lemma CutStreamAppended(h: History, pos: Position, n: nat)
    requires ValidHistory(h) && pos.file < |h| && n <= |SourceStream(h, pos)|
    ensures var s, tail := SourceStream(h, pos)[..n], Pending(h, pos.file, pos.pos);
      match SkipPreamble(s, pos.file)
      case Nothing => true
      case EmptyRotation(next) => HasNext(h, pos.file) && tail == [] && next == pos.file + 1
      case First(rest) =>
        && tail != [] && Body(rest) == rest
        && (AfterSegment(rest) != [] ==> HasNext(h, pos.file) && Segment(rest) == tail && AfterSegment(rest) == [Rotate(pos.file + 1)])
  {
    var k, s := pos.file, SourceStream(h, pos)[..n];
    assert ValidFile(k, h[k]);
    var tail, trailer := Pending(h, k, pos.pos), Trailer(h, k);
    CutShape(Rotate(k), h[k][0], tail, trailer, n);
    if n >= 2 {
      var rest := (tail + trailer)[..n - 2];
      SkipTwo(k, h[k][0], rest);
      if n > 2 {
        assert rest[0] == (tail + trailer)[0];
        CutSegment(tail, trailer, n - 2);
      }
    } else {
      assert n == 0 ==> s == [];
      if n == 1 {
        assert s[0] == Rotate(k) && s[1..] == [];
        assert SkipPreamble(s, k) == SkipPreamble(s[1..], k) == Nothing;
      }
    }
  }

  // The whole stream of a file the server has moved past.
  lemma WholeStream(h: History, pos: Position)
    requires ValidHistory(h) && HasNext(h, pos.file)
    ensures var s, tail, end := SourceStream(h, pos), Pending(h, pos.file, pos.pos), [Rotate(pos.file + 1)];
      Segment(Body(s)) == [h[pos.file][0]] + tail && AfterSegment(Body(s)) == end
      && SkipPreamble(s, pos.file) == (if tail == [] then EmptyRotation(pos.file + 1) else First(tail + end))
      && Body(tail + end) == (if tail == [] then [] else tail + end)
      && (tail != [] ==> Segment(tail + end) == tail && AfterSegment(tail + end) == end)
  {
    var k, fde, tail, end := pos.file, h[pos.file][0], Pending(h, pos.file, pos.pos), [Rotate(pos.file + 1)];
    assert ValidFile(k, h[k]);
    assert SourceStream(h, pos) == [Rotate(k)] + (([fde] + tail) + end) == [Rotate(k), fde] + (tail + end);
    LeadingRotate(k, ([fde] + tail) + end);
    SegmentOf([fde] + tail, end);
    SegmentOf(tail, end);
    SkipTwo(k, fde, tail + end);
    assert Segment(end) == [] && AfterSegment(end) == end && end[1..] == [];
    assert ([fde] + tail) + [] == [fde] + tail && tail + [] == tail && [] + end == end;
    assert tail != [] ==> (tail + end)[0] == tail[0] && tail[0].Data?;
  }

  // ---------- the loop ----------

  datatype Answer = Advanced | StateAdvance | StreamEnded | Failing

  // What the world does during one synchronisation: whether the source opens, after how many events its stream
  // is cut (None: not at all) and how it ends, the file system, how many attempts at writing the state file
  // fail, the server's answers to the recovery queries (ahead: how many files beyond the next one it lists) and
  // whether the recovery copy succeeds; and afterwards, whether the state file can be read and the loop has not
  // been cancelled.
  datatype World = World(
    opens: bool, cut: Option<nat>, ending: Ending, disk: Disk, failedSaves: nat,
    ahead: Option<nat>, master: Option<Position>, copies: bool,
    readable: bool, goesOn: bool)

  // The server's position lies in its history.
  predicate Possible(h: History, env: World) {
    env.master.Some? ==> env.master.value.file < |h|
  }

  // The files the server lists when it is known to have moved past file k: the next one and some more, as far
  // as it has written any.
  function Listed(h: History, k: nat, ahead: nat): (list: seq<nat>)
    requires HasNext(h, k)
    ensures k + 1 < |list| <= |h| && forall i :: 0 <= i < |list| ==> list[i] == i
  {
    seq(if k + 2 + ahead <= |h| then k + 2 + ahead else |h|, i => i)
  }

  // The source delivers the whole stream and the file system works. State writes may still fail.
  predicate Calm(env: World) {
    env.opens && env.cut.None? && env.disk.failsAt.None? && env.disk.verified && env.disk.stored && env.disk.removed
  }

  const MAX_SAVES := 3

  // Where the world cuts the stream from pos.
  function Cut(h: History, pos: Position, env: World): (n: nat)
    requires pos.file < |h| && h[pos.file] != []
    ensures n <= |SourceStream(h, pos)|
  {
    if env.cut.Some? && env.cut.value < |SourceStream(h, pos)| then env.cut.value else |SourceStream(h, pos)|
  }

  // What a segment of file pos.file holds once its stream has reached the next rotate.
  function Streamed(h: History, pos: Position, appending: bool): seq<Event>
    requires pos.file < |h| && h[pos.file] != []
  {
    if appending then Pending(h, pos.file, pos.pos) else [h[pos.file][0]] + Pending(h, pos.file, pos.pos)
  }

  // The file an answer advances to.
  function AdvancedTo(pos: Position, a: Answer): Option<nat> {
    if a == Advanced || a == StateAdvance then Some(pos.file + 1) else None
  }

  predicate Succeeds(env: World, a: Answer) {
    a == if env.failedSaves < 3 then Advanced else StateAdvance
  }

  // A round after which the loop goes on: not cancelled, no clean end of the stream, the state file readable.
  predicate Persists(env: World) {
    env.goesOn && env.readable && env.ending == Broken
  }

  function CalmRounds(worlds: seq<World>): nat {
    if worlds == [] then 0 else CalmRounds(worlds[..|worlds| - 1]) + if Calm(worlds[|worlds| - 1]) then 1 else 0
  }

  predicate Persisting(worlds: seq<World>) {
    forall i :: 0 <= i < |worlds| ==> Persists(worlds[i])
  }

  // A loop that began at start may be at pos after so many rounds.
  predicate Reached(h: History, start: Position, pos: Position, rounds: nat) {
    pos.file < |h| && start.file <= pos.file <= start.file + rounds && (pos == start || (start.file < pos.file && pos.pos == 0))
  }

  // It moved on by at least one file for each calm round, up to the last file.
  predicate Kept(h: History, start: Position, pos: Position, worlds: seq<World>) {
    pos.file >= start.file + CalmRounds(worlds) || pos.file == |h| - 1
  }

  predicate Copying(worlds: seq<World>) {
    forall i :: 0 <= i < |worlds| ==> worlds[i].copies
  }

  // What holds after the rounds of these worlds, if none of them stopped the loop. right says whether the archive
  // was right at the start.
  ghost predicate OnCourse(h: History, start: Position, right: bool, files: Files, pos: Position, lost: bool, worlds: seq<World>) {
    Reached(h, start, pos, |worlds|) && (right ==> Held(h, files, start, pos, lost)) && (Copying(worlds) ==> !lost)
    && (Persisting(worlds) ==> Kept(h, start, pos, worlds))
  }

  lemma PrefixHas(worlds: seq<World>, n: nat)
    requires n < |worlds|
    ensures worlds[..n + 1][..n] == worlds[..n] && worlds[..n + 1][n] == worlds[n]
    ensures Persisting(worlds[..n + 1]) ==> Persisting(worlds[..n]) && Persists(worlds[n])
    ensures Copying(worlds[..n + 1]) ==> Copying(worlds[..n]) && worlds[n].copies
    ensures Persisting(worlds) ==> Persisting(worlds[..n + 1])
    ensures Copying(worlds) ==> Copying(worlds[..n + 1])
  {
    if Persisting(worlds[..n + 1]) {
      forall i | 0 <= i < n ensures Persists(worlds[..n][i]) { assert Persists(worlds[..n + 1][i]); }
      assert Persists(worlds[..n + 1][n]);
    }
    if Copying(worlds[..n + 1]) {
      forall i | 0 <= i < n ensures worlds[..n][i].copies { assert worlds[..n + 1][i].copies; }
      assert worlds[..n + 1][n].copies;
    }
  }

  lemma RoundKept(h: History, start: Position, pos: Position, at: Position, worlds: seq<World>, n: nat)
    requires n < |worlds| && (Persisting(worlds[..n]) ==> Kept(h, start, pos, worlds[..n]))
    requires at == pos || at == Position(pos.file + 1, 0)
    requires pos.file < |h| && at.file < |h| && (Calm(worlds[n]) && HasNext(h, pos.file) ==> at != pos)
    ensures Persisting(worlds[..n + 1]) ==> Kept(h, start, at, worlds[..n + 1])
  {
    PrefixHas(worlds, n);
  }

  lemma RoundReached(h: History, start: Position, pos: Position, at: Position, n: nat)
    requires Reached(h, start, pos, n) && (at == pos || at == Position(pos.file + 1, 0)) && at.file < |h|
    ensures Reached(h, start, at, n + 1)
  {
  }

  lemma RoundCopying(h: History, start: Position, pos: Position, lost: bool, worlds: seq<World>, n: nat, effect: Effect)
    requires n < |worlds| && start.file < |h| && (Copying(worlds[..n]) ==> !lost) && (effect.CopyLost? ==> !worlds[n].copies)
    ensures Copying(worlds[..n + 1]) ==> !(lost || LosesStart(h, start, pos, effect))
  {
    PrefixHas(worlds, n);
  }

  lemma RoundKeeps(
      h: History, start: Position, right: bool, files: Files, pos: Position, lost: bool, worlds: seq<World>, n: nat,
      files': Files, at: Position, effect: Effect)
    requires ValidHistory(h) && n < |worlds| && OnCourse(h, start, right, files, pos, lost, worlds[..n])
    requires at == pos || at == Position(pos.file + 1, 0)
    requires SyncStep(h, files, pos, files', if at == pos then None else Some(pos.file + 1), effect)
    requires effect.CopyLost? ==> !worlds[n].copies
    requires Calm(worlds[n]) && HasNext(h, pos.file) ==> at != pos
    ensures OnCourse(h, start, right, files', at, lost || LosesStart(h, start, pos, effect), worlds[..n + 1])
  {
    StepReaches(h, files, pos, files', at, effect);
    RoundReached(h, start, pos, at, n);
    RoundCopying(h, start, pos, lost, worlds, n, effect);
    RoundKept(h, start, pos, at, worlds, n);
    if right {
      StepKeepsHeld(h, files, start, pos, lost, files', if at == pos then None else Some(pos.file + 1), effect);
    }
  }

  lemma StepReaches(h: History, files: Files, pos: Position, files': Files, at: Position, effect: Effect)
    requires pos.file < |h| && h[pos.file] != [] && (at == pos || at == Position(pos.file + 1, 0))
    requires SyncStep(h, files, pos, files', if at == pos then None else Some(pos.file + 1), effect)
    ensures at.file < |h|
  {
  }

  // What streaming from pos comes to: a complete segment of its file, an empty tail, or neither.
  lemma StreamOutcome(h: History, pos: Position, env: World)
    requires ValidHistory(h) && pos.file < |h|
    ensures var s, k := SourceStream(h, pos)[..Cut(h, pos, env)], pos.file;
      var whole := Consumption(s, env.ending, env.disk);
      && (whole.Boundary? ==> HasNext(h, k) && Segment(Body(s)) == Streamed(h, pos, false) && Target(s, None, true) == k)
      && (Calm(env) && HasNext(h, k) ==> whole.Boundary?)
      && match SkipPreamble(s, k)
        case Nothing => !(Calm(env) && HasNext(h, k))
        case EmptyRotation(next) => HasNext(h, k) && Pending(h, k, pos.pos) == [] && next == k + 1
        case First(rest) =>
          var tail := Consumption(rest, env.ending, env.disk);
          && (tail.Boundary? ==> HasNext(h, k) && Segment(Body(rest)) == Streamed(h, pos, true) != [])
          && (Calm(env) && HasNext(h, k) ==> tail.Boundary?)
  {
    var n, k := Cut(h, pos, env), pos.file;
    CutStreamConsumed(h, pos, n);
    CutStreamAppended(h, pos, n);
    if HasNext(h, k) { WholeStream(h, pos); }
    if env.cut.None? { assert SourceStream(h, pos)[..n] == SourceStream(h, pos); }
  }

  class Loop {
    const hist: History
    const w: Writer
    // The position in the state file, and the one in memory.
    var saved: Option<Position>
    var state: Option<Position>

    constructor (hist: History, w: Writer)
      ensures this.hist == hist && this.w == w && saved == None && state == None
    {
      this.hist, this.w := hist, w;
      saved, state := None, None;
    }

    // The server's stream from pos, cut where the world cuts it.
    method OpenSource(pos: Position, env: World) returns (ok: bool, stream: seq<Event>)
      requires pos.file < |hist| && hist[pos.file] != []
      ensures ok == env.opens
      ensures stream == SourceStream(hist, pos)[..Cut(hist, pos, env)]
    {
      ok := env.opens;
      stream := SourceStream(hist, pos);
      if env.cut.Some? && env.cut.value < |stream| {
        stream := stream[..env.cut.value];
      }
    }

    method SkipStreamPreamble(stream: seq<Event>, current: nat) returns (r: Preamble)
      ensures r == SkipPreamble(stream, current)
    {
      var i := 0;
      while i < |stream|
        invariant 0 <= i <= |stream| && SkipPreamble(stream, current) == SkipPreamble(stream[i..], current)
      {
        assert stream[i..][1..] == stream[i + 1..];
        match stream[i] {
          case Rotate(next) =>
            if next != current {
              return EmptyRotation(next);
            }
          case Fde(_, _) =>
          case Data(_, _, _) => return First(stream[i..]);
        }
        i := i + 1;
      }
      assert stream[|stream|..] == [];
      return Nothing;
    }

    method CleanupPartials()
      modifies w`partials
      ensures w.partials == map[]
    {
      w.partials := map[];
    }

    // Up to three attempts at writing the state file.
    method SaveStateRetry(st: Position, failedSaves: nat) returns (ok: bool)
      modifies this`saved
      ensures ok <==> failedSaves < 3
      ensures saved == if ok then Some(st) else old(saved)
    {
      for attempt := 0 to MAX_SAVES
        invariant saved == old(saved) && attempt <= failedSaves
      {
        if attempt >= failedSaves {
          saved := Some(st);
          return true;
        }
      }
      return false;
    }

    // Saves the position after a sealed file; the one in memory advances either way.
    method Advance(next: nat, failedSaves: nat) returns (a: Answer)
      modifies this
      ensures state == Some(Position(next, 0))
      ensures a == if failedSaves < 3 then Advanced else StateAdvance
      ensures saved == if a == Advanced then state else old(saved)
    {
      var st := Position(next, 0);
      var ok := SaveStateRetry(st, failedSaves);
      state := Some(st);
      a := if ok then Advanced else StateAdvance;
    }

    // Copies a source file, whole or up to the master position; an open file that is still empty is skipped.
    method BackfillFile(k: nat, master: Position, copies: bool) returns (ok: bool)
      requires k < |hist|
      modifies w`files
      ensures ok <==> copies || (k == master.file && master.pos <= 4)
      ensures !ok ==> w.files == old(w.files)
      ensures ok && k == master.file && master.pos <= 4 ==> w.files == old(w.files)
      ensures ok && k == master.file && master.pos > 4 ==> w.files == old(w.files)[k := UpTo(hist[k], master.pos)]
      ensures ok && k != master.file ==> w.files == old(w.files)[k := WholeCopy(hist, k)]
    {
      if k == master.file && master.pos <= MAGIC_END {
        return true;
      }
      ok := copies;
      if ok {
        var copy := if k == master.file then UpTo(hist[k], master.pos) else WholeCopy(hist, k);
        w.files := w.files[k := copy];
      }
    }

    // Replaces a file that would not seal by a whole copy, if the server has moved past it.
    method RecoverSealedFile(pos: Position, env: World) returns (recovered: bool, a: Answer, ghost effect: Effect)
      requires HasNext(hist, pos.file) && hist[pos.file] != [] && w.partials == map[] && Possible(hist, env)
      modifies this, w
      ensures w.partials == map[]
      ensures effect == if env.ahead.None? || env.master.None? || env.master.value.file <= pos.file then Untouched
        else if env.copies then Recovered else CopyLost
      ensures recovered <==> effect == Recovered
      ensures recovered ==> w.files == old(w.files)[pos.file := WholeCopy(hist, pos.file)] && state == Some(Position(pos.file + 1, 0))
      ensures recovered ==> a == (if env.failedSaves < 3 then Advanced else StateAdvance)
      ensures recovered ==> saved == if a == Advanced then state else old(saved)
      ensures !recovered ==> a == Failing && state == old(state) && saved == old(saved)
      ensures effect == Untouched ==> w.files == old(w.files)
      ensures effect == CopyLost ==> w.files == old(w.files) - {pos.file}
    {
      var k := pos.file;
      recovered, a, effect := false, Failing, Untouched;
      if env.ahead.None? || env.master.None? {
        return;
      }
      var list, master := Listed(hist, k, env.ahead.value), env.master.value;
      var rotated := master.file > k;
      if !rotated {
        rotated := k !in list;
      }
      if !rotated {
        return;
      }
      assert k in list by { assert list[k] == k; }
      w.files := w.files - {k};
      var copied := BackfillFile(k, master, env.copies);
      if !copied {
        effect := CopyLost;
        return;
      }
      assert w.files == old(w.files)[k := WholeCopy(hist, k)];
      var next := NextListed(list, k, master.file);
      recovered, effect := true, Recovered;
      a := Advance(next, env.failedSaves);
    }

    // The first listed file after k, or the master's file.
    method NextListed(list: seq<nat>, k: nat, master: nat) returns (next: nat)
      ensures (forall i :: 0 <= i < |list| ==> list[i] == i) && k + 1 < |list| ==> next == k + 1
    {
      for i := 0 to |list|
        invariant forall j :: 0 <= j < i ==> list[j] <= k
      {
        assert (forall j :: 0 <= j < |list| ==> list[j] == j) && i > k ==> list[i] == i && (i > 0 ==> list[i - 1] == i - 1);
        if list[i] > k {
          return list[i];
        }
      }
      assert k + 1 < |list| ==> list[k + 1] <= k;
      return master;
    }

    // Seals the segment just streamed. When that fails, clears up and looks for a rotated file to copy whole.
    method SealOrRecover(pos: Position, appending: bool, env: World) returns (a: Answer, ghost effect: Effect)
      requires HasNext(hist, pos.file) && hist[pos.file] != [] && Possible(hist, env)
      requires appending <==> pos.file in w.files
      requires appending ==> Pending(hist, pos.file, pos.pos) != []
      requires pos.file in w.partials && w.partials[pos.file].magic == !appending
      requires w.partials.Keys == {pos.file}
      requires w.partials[pos.file].events == Streamed(hist, pos, appending)
      modifies this, w
      ensures w.partials == map[]
      ensures SyncStep(hist, old(w.files), pos, w.files, AdvancedTo(pos, a), effect)
      ensures a == Advanced || a == StateAdvance ==> state == Some(Position(pos.file + 1, 0))
      ensures saved == if a == Advanced then state else old(saved)
      ensures a == StreamEnded || a == Failing ==> state == old(state)
      ensures a != StreamEnded && (effect.CopyLost? ==> !env.copies)
      ensures a == Advanced || a == StateAdvance ==> Succeeds(env, a)
      ensures Calm(env) ==> Succeeds(env, a) && effect == if appending then Appended else Sealed
    {
      var k := pos.file;
      ghost var was := w.files;
      var sealed;
      if appending {
        sealed := w.SealAppendVerified(k, env.disk);
        effect := if w.files == was && !sealed then Untouched else Appended;
      } else {
        sealed := w.Seal(k, env.disk);
        effect := if sealed then Sealed else Untouched;
      }
      if sealed {
        a := Advance(k + 1, env.failedSaves);
        return;
      }
      CleanupPartials();
      ghost var kept := w.files;
      var recovered;
      ghost var repair;
      recovered, a, repair := RecoverSealedFile(pos, env);
      if repair != Untouched {
        effect := repair;
        assert kept == was || kept.Keys == was.Keys;
        assert repair == Recovered ==> w.files == was[k := WholeCopy(hist, k)];
        assert repair == CopyLost ==> w.files == was - {k};
      }
    }

    // Streams the segment of file pos.file into its partial. The answer is None when the segment is complete.
    method StreamSegment(pos: Position, stream: seq<Event>, appending: bool, env: World)
      returns (a: Option<Answer>, ghost effect: Effect)
      requires ValidHistory(hist) && pos.file < |hist| && w.partials == map[]
      requires stream == SourceStream(hist, pos)[..Cut(hist, pos, env)]
      modifies this, w`partials
      ensures a.Some? ==> w.partials == map[]
      ensures a == None ==> HasNext(hist, pos.file) && w.partials.Keys == {pos.file}
      ensures a == None ==> w.partials[pos.file].magic == !appending
      ensures a == None ==> w.partials[pos.file].events == Streamed(hist, pos, appending)
      ensures a == None ==> (appending ==> Pending(hist, pos.file, pos.pos) != []) && state == old(state) && saved == old(saved)
      ensures effect == EmptyTail || effect == Untouched
      ensures effect == EmptyTail ==> appending && HasNext(hist, pos.file) && Pending(hist, pos.file, pos.pos) == []
      ensures effect == EmptyTail ==> a.Some? && Succeeds(env, a.value) && state == Some(Position(pos.file + 1, 0))
      ensures effect == EmptyTail ==> saved == (if a.value == Advanced then state else old(saved))
      ensures effect == Untouched && a.Some? ==> (a.value == StreamEnded || a.value == Failing) && state == old(state) && saved == old(saved)
      ensures a == Some(StreamEnded) ==> env.ending == CleanEnd
      ensures !HasNext(hist, pos.file) && env.disk.failsAt.None? ==> a == Some(if env.ending == CleanEnd then StreamEnded else Failing)
      ensures Calm(env) && HasNext(hist, pos.file) ==> a.None? || effect == EmptyTail
    {
      var k := pos.file;
      a, effect := None, Untouched;
      StreamOutcome(hist, pos, env);
      var consumed;
      if appending {
        var pre := SkipStreamPreamble(stream, k);
        match pre {
          case EmptyRotation(next) =>
            CleanupPartials();
            effect := EmptyTail;
            var answer := Advance(next, env.failedSaves);
            return Some(answer), effect;
          case Nothing =>
            CleanupPartials();
            return Some(if env.ending == CleanEnd then StreamEnded else Failing), effect;
          case First(rest) =>
            consumed := w.Consume(rest, env.ending, Some(k), false, env.disk);
        }
      } else {
        consumed := w.Consume(stream, env.ending, None, true, env.disk);
      }
      if !consumed.Boundary? {
        CleanupPartials();
        return Some(if consumed == Ended then StreamEnded else Failing), effect;
      }
    }

    method SyncOnce(pos: Position, env: World) returns (a: Answer, ghost effect: Effect)
      requires ValidHistory(hist) && pos.file < |hist| && w.partials == map[]
      requires Possible(hist, env)
      modifies this, w
      ensures w.partials == map[]
      ensures SyncStep(hist, old(w.files), pos, w.files, AdvancedTo(pos, a), effect)
      ensures a == Advanced || a == StateAdvance ==> state == Some(Position(pos.file + 1, 0))
      ensures saved == if a == Advanced then state else old(saved)
      ensures a == StreamEnded || a == Failing ==> state == old(state)
      ensures (a == StreamEnded ==> env.ending == CleanEnd) && (effect.CopyLost? ==> !env.copies)
      ensures a == Advanced || a == StateAdvance ==> Succeeds(env, a)
      // At the server's last file the stream ends as the connection does.
      ensures !env.opens ==> a == Failing
      ensures env.opens && !HasNext(hist, pos.file) && env.disk.failsAt.None? ==>
        a == if env.ending == CleanEnd then StreamEnded else Failing
      // With a whole stream and a working file system it advances, by sealing, appending or an empty tail; it is
      // saved unless every attempt fails.
      ensures Calm(env) && HasNext(hist, pos.file) ==>
        Succeeds(env, a) && effect == (if pos.file !in old(w.files) then Sealed
          else if Pending(hist, pos.file, pos.pos) == [] then EmptyTail else Appended)
      // From the old position of a segment already sealed it advances and leaves the archive as it is.
      ensures Calm(env) && HasNext(hist, pos.file) && pos.file in old(w.files) && old(w.files)[pos.file] == hist[pos.file] ==>
        w.files == old(w.files)
    {
      var k := pos.file;
      effect := Untouched;
      var ok, stream := OpenSource(pos, env);
      if !ok {
        return Failing, effect;
      }
      var appending := k in w.files;
      var streamed;
      streamed, effect := StreamSegment(pos, stream, appending, env);
      match streamed {
        case Some(answer) => a := answer;
        case None => a, effect := SealOrRecover(pos, appending, env);
      }
      if Calm(env) && HasNext(hist, k) && InWindow(hist, old(w.files), k) {
        ResealingIff(hist, old(w.files), pos, w.files, AdvancedTo(pos, a), effect);
      }
    }

    // Back-fills the listed files that are missing and clears stale segments. copies says which copies succeed.
    method Reconcile(list: Option<seq<nat>>, master: Option<Position>, copies: set<nat>) returns (ok: bool)
      requires list.Some? ==> |list.value| <= |hist| && forall i :: 0 <= i < |list.value| ==> list.value[i] == i
      modifies w
      ensures ok ==> list.Some? && master.Some? && w.partials == map[]
      ensures ok && old(w.files) == map[] ==> w.files == Backfilled(hist, |list.value|, master.value)
      ensures list.Some? && master.Some? && (forall k :: k in list.value ==> k in copies) ==> ok
    {
      if list.None? || master.None? {
        return false;
      }
      for i := 0 to |list.value|
        invariant old(w.files) == map[] ==> w.files == Backfilled(hist, i, master.value)
      {
        if list.value[i] !in w.files {
          var copied := BackfillFile(list.value[i], master.value, list.value[i] in copies);
          if !copied {
            return false;
          }
        }
      }
      CleanupPartials();
      return true;
    }

    // One round of the loop: a synchronisation and where to go on from, if the loop goes on.
    method Round(pos: Position, env: World) returns (next: Option<Position>, ghost at: Position, ghost effect: Effect)
      requires ValidHistory(hist) && pos.file < |hist| && w.partials == map[]
      requires Possible(hist, env)
      modifies this, w
      ensures w.partials == map[]
      ensures at == pos || at == Position(pos.file + 1, 0)
      ensures SyncStep(hist, old(w.files), pos, w.files, if at == pos then None else Some(pos.file + 1), effect)
      ensures at != pos ==> state == Some(at)
      ensures at == pos ==> state == old(state)
      ensures next.Some? ==> next.value == at
      ensures effect.CopyLost? ==> !env.copies
      ensures Persists(env) ==> next.Some?
      // Having advanced, it goes on unless the state it saved cannot be read; having failed, unless cancelled; a
      // stream that ends cleanly at the server's last file ends the loop.
      ensures at != pos ==> (next.Some? <==> env.failedSaves >= 3 || env.readable)
      ensures at == pos && next.Some? ==> env.goesOn
      ensures env.opens && !HasNext(hist, pos.file) && env.disk.failsAt.None? ==> (next.Some? <==> env.ending == Broken && env.goesOn)
      ensures Calm(env) && HasNext(hist, pos.file) ==> at != pos
    {
      var a;
      a, effect := SyncOnce(pos, env);
      at := Next(pos, AdvancedTo(pos, a));
      match a {
        case StreamEnded => return None, at, effect;
        case StateAdvance =>
          if state.None? || state.value.file == pos.file {
            return None, at, effect;
          }
          return state, at, effect;
        case Failing =>
          return if env.goesOn then Some(pos) else None, at, effect;
        case Advanced =>
          if !env.readable || saved.None? || saved.value.file == pos.file {
            return None, at, effect;
          }
          state := saved;
          return saved, at, effect;
      }
    }

    // worlds[i] is the world of round i; the loop is observed for that many rounds. at is the position reached;
    // lost says whether a failed recovery copy took the prefix of the starting file.
    method SyncLoop(master: Position, readable: bool, worlds: seq<World>) returns (ghost at: Position, ghost lost: bool)
      requires ValidHistory(hist) && w.partials == map[]
      requires saved.GetOr(master).file < |hist|
      requires forall i :: 0 <= i < |worlds| ==> Possible(hist, worlds[i])
      modifies this, w
      ensures w.partials == map[]
      ensures Archived(hist, old(w.files), old(saved.GetOr(master))) ==> Held(hist, w.files, old(saved.GetOr(master)), at, lost)
      ensures Copying(worlds) ==> !lost
      ensures Reached(hist, old(saved.GetOr(master)), at, |worlds|)
      ensures at != old(saved.GetOr(master)) ==> state == Some(at)
      // Unless the loop is stopped, every calm round moves it on by a file.
      ensures readable && Persisting(worlds) ==> Kept(hist, old(saved.GetOr(master)), at, worlds)
    {
      ghost var start := saved.GetOr(master);
      ghost var right := Archived(hist, w.files, start);
      at, lost := start, false;
      if !readable {
        return;
      }
      if saved.None? {
        state := Some(master);
      }
      var pos := saved.GetOr(master);
      for round := 0 to |worlds|
        invariant at == pos && (at != start ==> state == Some(at)) && w.partials == map[]
        invariant OnCourse(hist, start, right, w.files, pos, lost, worlds[..round])
      {
        ghost var before := w.files;
        var next;
        ghost var effect;
        next, at, effect := Round(pos, worlds[round]);
        RoundKeeps(hist, start, right, before, pos, lost, worlds, round, w.files, at, effect);
        lost := lost || LosesStart(hist, start, pos, effect);
        assert next.None? ==> !Persists(worlds[round]);
        if next.None? {
          return;
        }
        pos := next.value;
      }
      assert worlds[..|worlds|] == worlds;
    }

    // The whole loop from an empty archive. later is the master position read again once the back-fill is done;
    // readable says whether that query and the state file answered.
    method Run(list: Option<seq<nat>>, master: Option<Position>, later: Position, copies: set<nat>, readable: bool, worlds: seq<World>)
      returns (ghost at: Option<Position>, ghost lost: bool)
      requires ValidHistory(hist) && w.files == map[] && saved == None
      requires list.Some? ==> |list.value| <= |hist| && forall i :: 0 <= i < |list.value| ==> list.value[i] == i
      requires list.Some? && master.Some? ==> Follows(hist, master.value, later) && |list.value| <= master.value.file + 1
      requires forall i :: 0 <= i < |worlds| ==> Possible(hist, worlds[i])
      modifies this, w
      ensures at.Some? ==> w.partials == map[] && list.Some? && master.Some?
      ensures at.Some? && ListReaches(hist, |list.value|, master.value) && NothingBetween(hist, master.value, later) ==>
        Held(hist, w.files, later, at.value, lost)
      ensures Copying(worlds) ==> !lost
      ensures list.Some? && master.Some? && (forall k :: k in list.value ==> k in copies) ==> at.Some?
      ensures at.Some? && readable && Persisting(worlds) ==> Kept(hist, later, at.value, worlds)
    {
      at, lost := None, false;
      var ok := Reconcile(list, master, copies);
      if !ok {
        return;
      }
      BackfillArchivesIff(hist, |list.value|, master.value, later);
      ghost var reached;
      reached, lost := SyncLoop(later, readable, worlds);
      at := Some(reached);
    }
  }

  // ---------- the initial back-fill ----------

  // A position between events: past the format description unless the file is still empty.
  predicate OnBoundary(h: History, pos: Position) {
    pos.file < |h| && (pos.pos > 4 ==> UpTo(h[pos.file], pos.pos) != [])
  }

  // The archive after back-filling the first n files up to the master position.
  function Backfilled(h: History, n: nat, master: Position): Files
    requires n <= |h|
  {
    map k: nat | k < n && !(k == master.file && master.pos <= 4) ::
      if k == master.file then UpTo(h[k], master.pos) else WholeCopy(h, k)
  }

  // The list holds the master's own file, or all before it while that one is still empty.
  predicate ListReaches(h: History, n: nat, master: Position)
    requires master.file < |h|
  {
    n == master.file + 1 || (n == master.file && UpTo(h[master.file], master.pos) == [])
  }

  // The server moved on from one position between events to another.
  predicate Follows(h: History, master: Position, later: Position) {
    OnBoundary(h, master) && OnBoundary(h, later)
    && (master.file < later.file || (master.file == later.file && master.pos <= later.pos))
  }

  // It wrote no event meanwhile; it may have rotated to a file still empty.
  predicate NothingBetween(h: History, master: Position, later: Position)
    requires master.file < |h| && later.file < |h|
  {
    if later.file == master.file then UpTo(h[master.file], master.pos) == UpTo(h[later.file], later.pos)
    else later.file == master.file + 1 && UpTo(h[master.file], master.pos) == h[master.file] && UpTo(h[later.file], later.pos) == []
  }

  lemma {:induction false} UpToGrows(es: seq<Event>, p: nat, q: nat)
    requires p <= q
    ensures UpTo(es, p) <= UpTo(es, q)
  {
    if es != [] && End(es[0]) <= p { UpToGrows(es[1..], p, q); }
  }

  lemma ClosedFilesHeld(h: History, n: nat, master: Position)
    requires ValidHistory(h) && OnBoundary(h, master) && n <= master.file + 1
    ensures forall j :: 0 <= j < n && j < master.file ==> j in Backfilled(h, n, master) && NonRotate(Backfilled(h, n, master)[j]) == h[j]
  {
    forall j | 0 <= j < n && j < master.file ensures NonRotate(Backfilled(h, n, master)[j]) == h[j] {
      assert ValidFile(j, h[j]);
      NonRotateOf(h[j], Trailer(h, j));
    }
  }

  lemma StayedArchivesIff(h: History, n: nat, master: Position, later: Position)
    requires ValidHistory(h) && Follows(h, master, later) && n <= master.file + 1 && later.file == master.file
    ensures Archived(h, Backfilled(h, n, master), later) <==> ListReaches(h, n, master) && NothingBetween(h, master, later)
  {
    var k, files := master.file, Backfilled(h, n, master);
    assert ValidFile(k, h[k]);
    UpToGrows(h[k], master.pos, later.pos);
    ClosedFilesHeld(h, n, master);
    if n < k {
      assert n !in files;
    } else if k in files && files[k] == h[k] {
      assert UpTo(h[k], later.pos) == h[k];
    }
  }

  lemma PrefixNonRotate(h: History, k: nat, p: nat)
    requires k < |h| && ValidFile(k, h[k])
    ensures NonRotate(UpTo(h[k], p)) == UpTo(h[k], p)
  {
    NonRotateOf(UpTo(h[k], p), []);
    assert UpTo(h[k], p) + [] == UpTo(h[k], p);
  }

  lemma RotatedArchives(h: History, n: nat, master: Position, later: Position)
    requires ValidHistory(h) && Follows(h, master, later) && later.file == master.file + 1 && n == later.file
    requires UpTo(h[master.file], master.pos) == h[master.file] && UpTo(h[later.file], later.pos) == []
    ensures Archived(h, Backfilled(h, n, master), later)
  {
    var k := master.file;
    assert ValidFile(k, h[k]);
    ClosedFilesHeld(h, n, master);
    PrefixNonRotate(h, k, master.pos);
    assert h[k] != [];
  }

  lemma RotatedArchivesIff(h: History, n: nat, master: Position, later: Position)
    requires ValidHistory(h) && Follows(h, master, later) && n <= master.file + 1 && later.file > master.file
    ensures Archived(h, Backfilled(h, n, master), later) <==> ListReaches(h, n, master) && NothingBetween(h, master, later)
  {
    var k, files := master.file, Backfilled(h, n, master);
    assert ValidFile(k, h[k]);
    if Archived(h, files, later) {
      assert k in files && k + 1 !in files && later.file !in files;
      PrefixNonRotate(h, k, master.pos);
    } else if n == k + 1 && NothingBetween(h, master, later) {
      RotatedArchives(h, n, master, later);
    }
  }

  /** The back-fill of the listed files starts the loop with a right archive exactly when the file list
      reaches the master's file (a list read before that file appeared will do while the file is empty) and the
      server wrote no event before its position was read again. */
  lemma BackfillArchivesIff(h: History, n: nat, master: Position, later: Position)
    requires ValidHistory(h) && Follows(h, master, later) && n <= master.file + 1
    ensures Archived(h, Backfilled(h, n, master), later) <==> ListReaches(h, n, master) && NothingBetween(h, master, later)
  {
    if later.file == master.file {
      StayedArchivesIff(h, n, master, later);
    } else {
      RotatedArchivesIff(h, n, master, later);
    }
  }

  // ---------- failing cases ----------

  // Two files: one event after the first format description, none after the second.
  const X := Data(0, 200, "x")
  const TWO_FILES: History := [[Fde(0, 120), X], [Fde(1, 120)]]

  lemma TwoFilesValid()
    ensures ValidHistory(TWO_FILES)
    ensures UpTo(TWO_FILES[0], 0) == [] && Pending(TWO_FILES, 0, 0) == [X]
    ensures UpTo(TWO_FILES[0], 200) == TWO_FILES[0] && Pending(TWO_FILES, 0, 200) == []
    ensures UpTo(TWO_FILES[0], 120) == [Fde(0, 120)] && UpTo(TWO_FILES[1], 120) == [Fde(1, 120)]
  {
    var first := TWO_FILES[0];
    assert first[1..] == [X];
    assert UpTo([X], 120) == [] && UpTo([X], 200) == [X] + UpTo([X][1..], 200);
    assert UpTo(first, 200) == [Fde(0, 120)] + UpTo([X], 200);
    assert UpTo(TWO_FILES[1], 120) == [Fde(1, 120)] + UpTo(TWO_FILES[1][1..], 120);
  }

  /** A file copied whole, its position not saved: synchronising again appends its event a second time. */
  lemma CopyAppendedTwice()
    ensures var files, twice := map[0 := [Fde(0, 120), X, Rotate(1)]], map[0 := [Fde(0, 120), X, Rotate(1), X]];
      InWindow(TWO_FILES, files, 0) && files[0] == WholeCopy(TWO_FILES, 0)
      && SyncStep(TWO_FILES, files, Position(0, 0), twice, Some(1), Appended)
  {
    TwoFilesValid();
    var files: Files := map[0 := [Fde(0, 120), X, Rotate(1)]];
    assert WholeCopy(TWO_FILES, 0) == [Fde(0, 120), X] + [Rotate(1)] == files[0];
    CopyHidesTail(TWO_FILES, 0, 0);
    assert files[0] + [X] == [Fde(0, 120), X, Rotate(1), X];
    assert files[0 := files[0] + [X]] == map[0 := [Fde(0, 120), X, Rotate(1), X]];
  }

  /** A recovery copy that fails over a back-filled prefix loses that prefix. */
  lemma PrefixLost()
    ensures var files, pos := map[0 := [Fde(0, 120)]], Position(0, 120);
      Archived(TWO_FILES, files, pos) && SyncStep(TWO_FILES, files, pos, map[], None, CopyLost)
      && !Archived(TWO_FILES, map[], pos)
  {
    TwoFilesValid();
    var files: Files := map[0 := [Fde(0, 120)]];
    assert files - {0} == map[];
  }

  /** A file list read two files behind the master leaves a gap. */
  lemma ListTooShort()
    ensures OnBoundary(TWO_FILES, Position(1, 120)) && !ListReaches(TWO_FILES, 0, Position(1, 120))
    ensures !Archived(TWO_FILES, Backfilled(TWO_FILES, 0, Position(1, 120)), Position(1, 120))
  {
    TwoFilesValid();
    BackfillArchivesIff(TWO_FILES, 0, Position(1, 120), Position(1, 120));
  }

  /** An event written between the two reads of the master position is missing from the archive the loop starts with. */
  lemma WrittenMeanwhile()
    ensures Follows(TWO_FILES, Position(0, 120), Position(0, 200)) && ListReaches(TWO_FILES, 1, Position(0, 120))
    ensures Backfilled(TWO_FILES, 1, Position(0, 120)) == map[0 := [Fde(0, 120)]]
    ensures Pending(TWO_FILES, 0, 200) == [] && X in TWO_FILES[0]
    ensures !Archived(TWO_FILES, Backfilled(TWO_FILES, 1, Position(0, 120)), Position(0, 200))
  {
    TwoFilesValid();
    BackfillArchivesIff(TWO_FILES, 1, Position(0, 120), Position(0, 200));
  }
}
