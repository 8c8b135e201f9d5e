/**
 Archive segments (internal/archive/archive.go). A binlog file is the sequence of its events, each carrying
 its end position; file names are the files' places in the server's order. Creating, writing, checking,
 renaming and removing files may each fail, and then have no effect.
 */
module Archive {
  import opened Base

  datatype Event =
    | Fde(file: nat, end: nat)
    | Data(file: nat, end: nat, payload: string)
    | Rotate(next: nat)

  // A segment being written: whether it starts with the binlog magic, and its events.
  datatype Partial = Partial(magic: bool, events: seq<Event>)

  // What the file system does during one segment: the event whose write fails, if one does, and whether the
  // check of the segment, the step that stores it and the removal of the partial succeed.
  datatype Disk = Disk(failsAt: Option<nat>, verified: bool, stored: bool, removed: bool)

  // How a stream ends after its last event.
  datatype Ending = CleanEnd | Broken

  datatype Consumed = Boundary(next: nat) | Ended | Interrupted

  const DEFAULT_NAME: nat := 0

  // ---------- the shape of a stream ----------

  // The name given by the rotates a stream starts with.
  function Announced(stream: seq<Event>, name: nat): nat {
    if stream != [] && stream[0].Rotate? then Announced(stream[1..], stream[0].next) else name
  }

  function Body(stream: seq<Event>): seq<Event> {
    if stream != [] && stream[0].Rotate? then Body(stream[1..]) else stream
  }

  // The events up to the next rotate.
  function Segment(stream: seq<Event>): seq<Event> {
    if stream == [] || stream[0].Rotate? then [] else [stream[0]] + Segment(stream[1..])
  }

  function AfterSegment(stream: seq<Event>): seq<Event> {
    if stream == [] || stream[0].Rotate? then stream else AfterSegment(stream[1..])
  }

  predicate EndsWith(s: seq<Event>, tail: seq<Event>) {
    |tail| <= |s| && s[|s| - |tail|..] == tail
  }

  // The check that skips a tail appended before: an empty tail never counts.
  predicate AlreadyAppended(final: seq<Event>, tail: seq<Event>) {
    tail != [] && EndsWith(final, tail)
  }

  /** When no event of the tail occurs in the archived prefix, the check skips the tail exactly when it has
      been appended. */
  lemma SkipsExactlyTheAppended(prefix: seq<Event>, tail: seq<Event>)
    requires tail != [] && forall e :: e in prefix ==> e !in tail
    ensures AlreadyAppended(prefix + tail, tail)
    ensures !AlreadyAppended(prefix, tail)
  {
    assert (prefix + tail)[|prefix|..] == tail;
    if |tail| <= |prefix| {
      var end := prefix[|prefix| - |tail|..];
      assert end[0] in prefix && tail[0] in tail;
      assert end[0] != tail[0];
    }
  }

  // Opening a segment: created afresh with the magic, or opened for appending.
  function Opened(partials: map<nat, Partial>, name: nat, writeMagic: bool): Partial {
    if writeMagic || name !in partials then Partial(writeMagic, []) else partials[name]
  }

  function Extended(p: Partial, events: seq<Event>): Partial {
    p.(events := p.events + events)
  }

  lemma ExtendMore(p: Partial, a: seq<Event>, b: seq<Event>)
    ensures Extended(Extended(p, a), b) == Extended(p, a + b)
  {
    Assoc(p.events, a, b);
  }

  // The file a stream's segment is written to.
  function Target(stream: seq<Event>, fileName: Option<nat>, writeMagic: bool): nat {
    if writeMagic then Announced(stream, fileName.GetOr(DEFAULT_NAME)) else fileName.GetOr(DEFAULT_NAME)
  }

  // How consuming a stream ends: at the rotate after the first segment, unless a write or the stream fails first.
  function Consumption(stream: seq<Event>, ending: Ending, disk: Disk): Consumed {
    var segment, rest := Segment(Body(stream)), AfterSegment(Body(stream));
    if disk.failsAt.Some? && disk.failsAt.value < |segment| then Interrupted
    else if segment != [] && rest != [] && rest[0].Rotate? then Boundary(rest[0].next)
    else if ending == CleanEnd then Ended
    else Interrupted
  }

  lemma SegmentStep(stream: seq<Event>, i: nat)
    requires i < |stream| && !stream[i].Rotate?
    ensures Body(stream[i..]) == stream[i..] && Segment(stream[i..]) == [stream[i]] + Segment(stream[i + 1..])
    ensures AfterSegment(stream[i..]) == AfterSegment(stream[i + 1..])
  {
    assert stream[i..][1..] == stream[i + 1..];
  }

  lemma RotateStep(stream: seq<Event>, i: nat, name: nat)
    requires i < |stream| && stream[i].Rotate?
    ensures Body(stream[i..]) == Body(stream[i + 1..]) && Segment(stream[i..]) == [] && AfterSegment(stream[i..]) == stream[i..]
    ensures Announced(stream[i..], name) == Announced(stream[i + 1..], stream[i].next)
  {
    assert stream[i..][1..] == stream[i + 1..];
  }

  // Where consuming stands before event i: still at the leading rotates, or with written taken from the segment.
  ghost predicate Underway(stream: seq<Event>, i: nat, started: bool, written: seq<Event>) {
    i <= |stream| &&
    if started then
      written != [] && Segment(Body(stream)) == written + Segment(stream[i..]) && AfterSegment(Body(stream)) == AfterSegment(stream[i..])
    else written == [] && Body(stream[i..]) == Body(stream)
  }

  lemma UnderwayRotate(stream: seq<Event>, i: nat)
    requires i < |stream| && stream[i].Rotate? && Underway(stream, i, false, [])
    ensures Underway(stream, i + 1, false, [])
  {
    RotateStep(stream, i, 0);
  }

  lemma UnderwayEvent(stream: seq<Event>, i: nat, started: bool, written: seq<Event>)
    requires i < |stream| && !stream[i].Rotate? && Underway(stream, i, started, written)
    ensures Underway(stream, i + 1, true, written + [stream[i]])
    ensures |written| < |Segment(Body(stream))|
  {
    SegmentStep(stream, i);
    Assoc(written, [stream[i]], Segment(stream[i + 1..]));
    if !started { assert [] + Segment(stream[i..]) == Segment(stream[i..]); }
  }

  // At a rotate after the first event, or at the end of the stream, the segment is complete.
  lemma UnderwayEnd(stream: seq<Event>, i: nat, started: bool, written: seq<Event>)
    requires Underway(stream, i, started, written) && (i == |stream| || (started && stream[i].Rotate?))
    ensures Segment(Body(stream)) == written && AfterSegment(Body(stream)) == stream[i..]
  {
    assert written + [] == written;
    if i == |stream| { assert stream[i..] == []; }
  }

  // ---------- the writer ----------

  class Writer {
    var files: map<nat, seq<Event>>
    var partials: map<nat, Partial>

    constructor ()
      ensures files == map[] && partials == map[]
    {
      files, partials := map[], map[];
    }

    method Consume(stream: seq<Event>, ending: Ending, fileName: Option<nat>, writeMagic: bool, disk: Disk) returns (r: Consumed)
      modifies this`partials
      ensures r == Consumption(stream, ending, disk)
      ensures r.Boundary? ==> var name := Target(stream, fileName, writeMagic);
        partials == old(partials)[name := Extended(Opened(old(partials), name, writeMagic), Segment(Body(stream)))]
    {
      var next := fileName.GetOr(DEFAULT_NAME);
      var started := false;
      ghost var target := Target(stream, fileName, writeMagic);
      ghost var empty := Opened(partials, target, writeMagic);
      ghost var written: seq<Event> := [];
      var writes := 0;
      var i := 0;
      while i < |stream|
        invariant Underway(stream, i, started, written) && writes == |written|
        invariant disk.failsAt.Some? ==> writes <= disk.failsAt.value
        invariant !started ==> Target(stream[i..], Some(next), writeMagic) == target
        invariant started ==> next == target
        invariant partials == if started then old(partials)[target := Extended(empty, written)] else old(partials)
      {
        var ev := stream[i];
        if ev.Rotate? {
          if !started {
            RotateStep(stream, i, next);
            UnderwayRotate(stream, i);
            if writeMagic {
              next := ev.next;
            }
            i := i + 1;
            continue;
          }
          UnderwayEnd(stream, i, started, written);
          return Boundary(ev.next);
        }
        UnderwayEvent(stream, i, started, written);
        if !started {
          SegmentStep(stream, i);
          assert Extended(empty, []) == empty;
          partials := partials[next := Opened(partials, next, writeMagic)];
          started := true;
        }
        if disk.failsAt == Some(writes) {
          return Interrupted;
        }
        ExtendMore(empty, written, [ev]);
        PutTwice(old(partials), target, Extended(empty, written), Extended(empty, written + [ev]));
        partials := partials[next := Extended(partials[next], [ev])];
        written := written + [ev];
        writes := writes + 1;
        i := i + 1;
      }
      UnderwayEnd(stream, i, started, written);
      if ending == CleanEnd {
        return Ended;
      }
      return Interrupted;
    }

    // Each outcome leaves the file as it was or whole; the partial is gone after a success.
    method Seal(name: nat, disk: Disk) returns (ok: bool)
      requires name in partials
      modifies this
      ensures partials == if ok then old(partials) - {name} else old(partials)
      ensures old(partials)[name].magic ==> (ok <==> name !in old(files) && disk.verified && disk.stored)
      ensures old(partials)[name].magic ==>
        files == if ok then old(files)[name := old(partials)[name].events] else old(files)
      ensures !old(partials)[name].magic ==> (ok <==> name in old(files) && disk.verified && disk.stored && disk.removed)
      ensures !old(partials)[name].magic ==>
        files == if name in old(files) && disk.verified && disk.stored
          then old(files)[name := old(files)[name] + old(partials)[name].events] else old(files)
    {
      var data := partials[name];
      if data.magic {
        if name in files {
          return false;
        }
        if !disk.verified || !disk.stored {
          return false;
        }
        files, partials := files[name := data.events], partials - {name};
        return true;
      }
      if name !in files {
        return false;
      }
      if !disk.verified || !disk.stored {
        return false;
      }
      files := files[name := files[name] + data.events];
      ok := disk.removed;
      if ok {
        partials := partials - {name};
      }
    }

    // The append form with combined verification; a tail that is already there is not appended again.
    method SealAppendVerified(name: nat, disk: Disk) returns (ok: bool)
      requires name in partials
      modifies this
      ensures partials == if ok then old(partials) - {name} else old(partials)
      ensures var there := name in old(files) && AlreadyAppended(old(files)[name], old(partials)[name].events);
        (ok <==> name in old(files) && (there || (disk.verified && disk.stored)) && disk.removed) &&
        files == if name in old(files) && !there && disk.verified && disk.stored
          then old(files)[name := old(files)[name] + old(partials)[name].events] else old(files)
    {
      var tail := partials[name].events;
      if name !in files {
        return false;
      }
      if !AlreadyAppended(files[name], tail) {
        if !disk.verified || !disk.stored {
          return false;
        }
        files := files[name := files[name] + tail];
      }
      ok := disk.removed;
      if ok {
        partials := partials - {name};
      }
    }
  }
}
