/** The payload bridge (grpc/src/dusk_payloads.rs, `subscribe`): server-sent
    frames rebuilt from arbitrary byte chunks, and an unbroken sequence. */
module PayloadBridge {
  import opened Options

  /** One char per byte. */
  type Bytes = string

  const MAX_FRAME := 2 * 1024 * 1024

  const PREFIX: Bytes := "event: dusk-payload\ndata: "

  /** What `valid_payload` and the continuity check read from a frame's JSON. */
  datatype Envelope = Envelope(identity: string, streamId: string, sequence: nat)

  /** UTF-8 validation, and JSON parsing with payload validation at a fixed
      clock, as total functions of the bytes. */
  datatype Checks = Checks(utf8: Bytes -> bool, decode: Bytes -> Option<Envelope>)

  datatype Error = Unavailable | ContinuityLost | FrameTooLarge

  /** The stream's locals and the payloads it has yielded. */
  datatype Progress = Progress(sequence: nat, identity: string, streamId: string, delivered: seq<Bytes>)

  const START := Progress(0, "", "", [])

  datatype State =
    | Reading(buffer: Bytes, progress: Progress)
    | Ended(delivered: seq<Bytes>, error: Error)

  // ----- splitting at blank lines -----

  predicate BlankLineAt(s: Bytes, i: nat) {
    i + 1 < |s| && s[i] == '\n' && s[i + 1] == '\n'
  }

  function FindFrom(s: Bytes, from: nat): (r: Option<nat>)
    ensures r.Some? ==> from <= r.value && BlankLineAt(s, r.value)
    ensures r.Some? ==> forall j: nat :: from <= j < r.value ==> !BlankLineAt(s, j)
    ensures r.None? ==> forall j: nat :: from <= j ==> !BlankLineAt(s, j)
    decreases |s| - from
  {
    if from + 1 >= |s| then None
    else if BlankLineAt(s, from) then Some(from)
    else FindFrom(s, from + 1)
  }

  /** `buffer.windows(2).position(|w| w == b"\n\n")`. */
  function FindBlankLine(s: Bytes): (r: Option<nat>)
    ensures r.Some? ==> BlankLineAt(s, r.value) && forall j: nat :: j < r.value ==> !BlankLineAt(s, j)
    ensures r.None? ==> forall j: nat :: !BlankLineAt(s, j)
  {
    FindFrom(s, 0)
  }

  lemma {:induction false} FirstBlankLine(s: Bytes, i: nat)
    requires BlankLineAt(s, i) && forall j: nat :: j < i ==> !BlankLineAt(s, j)
    ensures FindBlankLine(s) == Some(i)
  {
  }

  /** The whole stream split at leftmost blank lines. */
  function Frames(s: Bytes): seq<Bytes>
    decreases |s|
  {
    match FindBlankLine(s)
    case None => []
    case Some(i) => [s[..i + 2]] + Frames(s[i + 2..])
  }

  function Residue(s: Bytes): Bytes
    decreases |s|
  {
    match FindBlankLine(s)
    case None => s
    case Some(i) => Residue(s[i + 2..])
  }

  lemma {:induction false} FramesStep(s: Bytes)
    requires FindBlankLine(s).Some?
    ensures var i := FindBlankLine(s).value;
            Frames(s) == [s[..i + 2]] + Frames(s[i + 2..]) && Residue(s) == Residue(s[i + 2..])
  {
  }

  function Concat(parts: seq<Bytes>): Bytes {
    if parts == [] then [] else parts[0] + Concat(parts[1..])
  }

  lemma {:induction false} FrameEndsOnce(s: Bytes, i: nat)
    requires FindBlankLine(s) == Some(i)
    ensures FindBlankLine(s[..i + 2]) == Some(i)
  {
    var frame := s[..i + 2];
    assert forall j: nat :: j < i ==> BlankLineAt(frame, j) == BlankLineAt(s, j);
    FirstBlankLine(frame, i);
  }

  lemma {:induction false} ConcatCons(x: Bytes, xs: seq<Bytes>)
    ensures Concat([x] + xs) == x + Concat(xs)
  {
    assert ([x] + xs)[1..] == xs;
  }

  lemma {:induction false} Regrouped(s: Bytes, end: nat, a: Bytes, b: Bytes)
    requires end <= |s| && a + b == s[end..]
    ensures (s[..end] + a) + b == s
  {
    assert (s[..end] + a) + b == s[..end] + (a + b);
  }

  /** No byte is lost or invented: drained frames and buffer are the input. */
  lemma {:induction false} BytesAreConserved(s: Bytes)
    ensures Concat(Frames(s)) + Residue(s) == s
    decreases |s|
  {
    if FindBlankLine(s).Some? {
      hide Frames, Residue, Concat, BlankLineAt;
      var end := FindBlankLine(s).value + 2;
      FramesStep(s);
      BytesAreConserved(s[end..]);
      ConcatCons(s[..end], Frames(s[end..]));
      Regrouped(s, end, Concat(Frames(s[end..])), Residue(s[end..]));
    }
  }

  /** Each frame holds one delimiter, at its end, and the buffer holds none. */
  lemma {:induction false} DelimitersEndFrames(s: Bytes)
    ensures FindBlankLine(Residue(s)).None?
    ensures forall k :: 0 <= k < |Frames(s)| ==> FindBlankLine(Frames(s)[k]) == Some(|Frames(s)[k]| - 2)
    decreases |s|
  {
    if FindBlankLine(s).Some? {
      var end := FindBlankLine(s).value + 2;
      FramesStep(s);
      FrameEndsOnce(s, end - 2);
      DelimitersEndFrames(s[end..]);
    }
  }

  lemma {:induction false} FirstStays(a: Bytes, b: Bytes)
    requires FindBlankLine(a).Some?
    ensures FindBlankLine(a + b) == FindBlankLine(a)
  {
    var i := FindBlankLine(a).value;
    assert forall j: nat :: j <= i ==> BlankLineAt(a + b, j) == BlankLineAt(a, j);
    FirstBlankLine(a + b, i);
  }

  lemma {:induction false} FramesAfter(f: Bytes, t: Bytes)
    requires |f| >= 2 && FindBlankLine(f + t) == Some(|f| - 2)
    ensures Frames(f + t) == [f] + Frames(t) && Residue(f + t) == Residue(t)
  {
    assert (f + t)[..|f|] == f && (f + t)[|f|..] == t;
  }

  lemma {:induction false} OneMoreFrame(f: Bytes, r: Bytes, b: Bytes)
    requires |f| >= 2 && FindBlankLine(f + r) == Some(|f| - 2)
    requires Frames(r + b) == Frames(r) + Frames(Residue(r) + b) && Residue(r + b) == Residue(Residue(r) + b)
    ensures Frames(f + (r + b)) == Frames(f + r) + Frames(Residue(f + r) + b)
    ensures Residue(f + (r + b)) == Residue(Residue(f + r) + b)
  {
    hide *;
    assert f + (r + b) == (f + r) + b;
    FirstStays(f + r, b);
    FramesAfter(f, r);
    FramesAfter(f, r + b);
  }

  /** Bytes that arrive later never change a frame that is already complete. */
  lemma {:induction false} FramesExtend(a: Bytes, b: Bytes)
    ensures Frames(a + b) == Frames(a) + Frames(Residue(a) + b)
    ensures Residue(a + b) == Residue(Residue(a) + b)
    decreases |a|
  {
    match FindBlankLine(a)
    case None =>
    case Some(i) =>
      var f, r := a[..i + 2], a[i + 2..];
      FramesExtend(r, b);
      assert a == f + r && a + b == f + (r + b);
      OneMoreFrame(f, r, b);
  }

  // ----- one frame -----

  datatype FrameResult = Accepted(progress: Progress) | Rejected(error: Error)

  /** The loop body after a frame is drained. */
  function ReadFrame(checks: Checks, p: Progress, frame: Bytes): FrameResult {
    if !checks.utf8(frame) then Rejected(Unavailable)
    else if frame != [] && frame[0] == ':' then Accepted(p)
    else if !(PREFIX <= frame) || |frame| < |PREFIX| + 2 || frame[|frame| - 2..] != "\n\n" then Rejected(Unavailable)
    else
      var body := frame[|PREFIX|..|frame| - 2];
      match checks.decode(body)
      case None => Rejected(Unavailable)
      case Some(e) => Continue(p, e, body)
  }

  /** Identity and stream are fixed by the first payload; numbers go up by one. */
  function Continue(p: Progress, e: Envelope, body: Bytes): FrameResult {
    var identity := if p.sequence == 0 then e.identity else p.identity;
    var streamId := if p.sequence == 0 then e.streamId else p.streamId;
    if e.identity != identity || e.streamId != streamId || e.sequence != p.sequence + 1
    then Rejected(ContinuityLost)
    else Accepted(Progress(p.sequence + 1, identity, streamId, p.delivered + [body]))
  }

  /** Frames in order up to the first rejected one. */
  function ReadFrames(checks: Checks, buffer: Bytes, p: Progress, frames: seq<Bytes>): State
    decreases |frames|
  {
    if frames == [] then Reading(buffer, p)
    else match ReadFrame(checks, p, frames[0])
      case Accepted(next) => ReadFrames(checks, buffer, next, frames[1..])
      case Rejected(error) => Ended(p.delivered, error)
  }

  /** The inner loop: what becomes of a buffer and the locals. */
  function Settle(checks: Checks, buffer: Bytes, p: Progress): State {
    ReadFrames(checks, Residue(buffer), p, Frames(buffer))
  }

  /** One pass of the outer loop: a chunk, or None for the end of the body, a
      transport error or a missed deadline. */
  function OnChunk(checks: Checks, s: State, chunk: Option<Bytes>): State {
    if s.Ended? then s
    else match chunk
      case None => Ended(s.progress.delivered, Unavailable)
      case Some(c) =>
        if |s.buffer| + |c| > MAX_FRAME then Ended(s.progress.delivered, FrameTooLarge)
        else Settle(checks, s.buffer + c, s.progress)
  }

  lemma {:induction false} ReadFramesCons(checks: Checks, buffer: Bytes, p: Progress, frame: Bytes, frames: seq<Bytes>)
    ensures var result := ReadFrame(checks, p, frame);
            ReadFrames(checks, buffer, p, [frame] + frames) ==
            if result.Accepted? then ReadFrames(checks, buffer, result.progress, frames)
            else Ended(p.delivered, result.error)
  {
    assert ([frame] + frames)[1..] == frames;
  }

  lemma {:induction false} SettleStep(checks: Checks, buffer: Bytes, p: Progress)
    ensures FindBlankLine(buffer).None? ==> Settle(checks, buffer, p) == Reading(buffer, p)
    ensures FindBlankLine(buffer).Some? ==>
              var end := FindBlankLine(buffer).value + 2;
              var result := ReadFrame(checks, p, buffer[..end]);
              Settle(checks, buffer, p) ==
              if result.Accepted? then Settle(checks, buffer[end..], result.progress)
              else Ended(p.delivered, result.error)
  {
    if FindBlankLine(buffer).Some? {
      var end := FindBlankLine(buffer).value + 2;
      FramesStep(buffer);
      ReadFramesCons(checks, Residue(buffer), p, buffer[..end], Frames(buffer[end..]));
    }
  }

  class Bridge {
    const checks: Checks
    var buffer: Bytes
    var sequence: nat
    var identity: string
    var streamId: string
    var delivered: seq<Bytes>
    var error: Option<Error>

    function Locals(): Progress
      reads this
    {
      Progress(sequence, identity, streamId, delivered)
    }

    function State(): State
      reads this
    {
      if error.Some? then Ended(delivered, error.value) else Reading(buffer, Locals())
    }

    constructor (checks: Checks)
      ensures this.checks == checks && State() == Reading([], START)
    {
      this.checks := checks;
      buffer, sequence, identity, streamId, delivered, error := [], 0, "", "", [], None;
    }

    method Receive(chunk: Option<Bytes>)
      requires error.None?
      modifies this
      ensures State() == OnChunk(checks, old(State()), chunk)
      ensures chunk.None? ==> State() == Ended(old(delivered), Unavailable)
    {
      hide Settle, ReadFrame;
      if chunk.None? {
        error := Some(Unavailable);
        return;
      }
      if |buffer| + |chunk.value| > MAX_FRAME {
        error := Some(FrameTooLarge);
        return;
      }
      buffer := buffer + chunk.value;
      ghost var target := Settle(checks, buffer, Locals());
      var more := true;
      while more
        invariant error.None? ==> target == Settle(checks, buffer, Locals())
        invariant more ==> error.None?
        invariant !more ==> target == State()
        decreases more, |buffer|
      {
        SettleStep(checks, buffer, Locals());
        var end := FindBlankLine(buffer);
        if end.None? {
          more := false;
        } else {
          var result := ReadFrame(checks, Locals(), buffer[..end.value + 2]);
          buffer := buffer[end.value + 2..];
          if result.Rejected? {
            error, more := Some(result.error), false;
          } else {
            sequence, delivered := result.progress.sequence, result.progress.delivered;
            identity, streamId := result.progress.identity, result.progress.streamId;
          }
        }
      }
    }
  }

  // ----- every chunking -----

  function Run(checks: Checks, s: State, chunks: seq<Bytes>): State
    decreases |chunks|
  {
    if chunks == [] then s else Run(checks, OnChunk(checks, s, Some(chunks[0])), chunks[1..])
  }

  /** Every chunk fits beside the unfinished frame before it. */
  predicate Fits(buffer: Bytes, chunks: seq<Bytes>)
    decreases |chunks|
  {
    chunks == []
    || (|buffer| + |chunks[0]| <= MAX_FRAME && Fits(Residue(buffer + chunks[0]), chunks[1..]))
  }

  /** A chunk is measured beside the unfinished frame of all that came before it. */
  lemma {:induction false} FitsExactly(buffer: Bytes, chunks: seq<Bytes>)
    requires FindBlankLine(buffer).None?
    ensures Fits(buffer, chunks) <==>
            forall k :: 0 <= k < |chunks| ==> |Residue(buffer + Concat(chunks[..k]))| + |chunks[k]| <= MAX_FRAME
    decreases |chunks|
  {
    if chunks != [] {
      var first, rest := buffer + chunks[0], chunks[1..];
      hide Residue, Concat, FindBlankLine;
      NothingBefore(buffer, chunks);
      DelimitersEndFrames(first);
      FitsExactly(Residue(first), rest);
      forall k | 0 <= k < |rest|
        ensures Residue(buffer + Concat(chunks[..k + 1])) == Residue(Residue(first) + Concat(rest[..k]))
      {
        OneChunkBefore(buffer, chunks, k);
      }
      assert forall k :: 0 < k < |chunks| ==> chunks[k] == rest[k - 1] && k == (k - 1) + 1;
    }
  }

  lemma {:induction false} NothingBefore(buffer: Bytes, chunks: seq<Bytes>)
    requires FindBlankLine(buffer).None?
    ensures Residue(buffer + Concat(chunks[..0])) == buffer
  {
    assert buffer + Concat(chunks[..0]) == buffer;
  }

  lemma {:induction false} OneChunkBefore(buffer: Bytes, chunks: seq<Bytes>, k: nat)
    requires k < |chunks| - 1
    ensures Residue(buffer + Concat(chunks[..k + 1])) ==
            Residue(Residue(buffer + chunks[0]) + Concat(chunks[1..][..k]))
  {
    assert chunks[..k + 1] == [chunks[0]] + chunks[1..][..k];
    ConcatCons(chunks[0], chunks[1..][..k]);
    FramesExtend(buffer + chunks[0], Concat(chunks[1..][..k]));
    assert buffer + (chunks[0] + Concat(chunks[1..][..k])) == (buffer + chunks[0]) + Concat(chunks[1..][..k]);
  }

  lemma {:induction false} ReadFramesAppend(checks: Checks, b: Bytes, c: Bytes, p: Progress, xs: seq<Bytes>,
                                            ys: seq<Bytes>)
    ensures ReadFrames(checks, b, p, xs + ys) ==
            match ReadFrames(checks, c, p, xs)
            case Reading(_, q) => ReadFrames(checks, b, q, ys)
            case Ended(d, e) => Ended(d, e)
    decreases |xs|
  {
    if xs == [] {
      assert xs + ys == ys;
    } else {
      assert (xs + ys)[0] == xs[0] && (xs + ys)[1..] == xs[1..] + ys;
      match ReadFrame(checks, p, xs[0])
      case Accepted(next) => ReadFramesAppend(checks, b, c, next, xs[1..], ys);
      case Rejected(_) =>
    }
  }

  lemma {:induction false} EndedStays(checks: Checks, s: State, chunks: seq<Bytes>)
    requires s.Ended?
    ensures Run(checks, s, chunks) == s
    decreases |chunks|
  {
    if chunks != [] {
      EndedStays(checks, s, chunks[1..]);
    }
  }

  lemma {:induction false} ReadFramesBuffer(checks: Checks, b: Bytes, p: Progress, frames: seq<Bytes>)
    ensures ReadFrames(checks, b, p, frames).Reading? ==> ReadFrames(checks, b, p, frames).buffer == b
    decreases |frames|
  {
    if frames != [] && ReadFrame(checks, p, frames[0]).Accepted? {
      ReadFramesBuffer(checks, b, ReadFrame(checks, p, frames[0]).progress, frames[1..]);
    }
  }

  lemma {:induction false} RunReadsFrames(checks: Checks, buffer: Bytes, p: Progress, chunks: seq<Bytes>)
    requires FindBlankLine(buffer).None? && Fits(buffer, chunks)
    ensures Run(checks, Reading(buffer, p), chunks) ==
            ReadFrames(checks, Residue(buffer + Concat(chunks)), p, Frames(buffer + Concat(chunks)))
    decreases |chunks|
  {
    if chunks == [] {
      assert buffer + Concat(chunks) == buffer;
    } else {
      var first, rest := buffer + chunks[0], Concat(chunks[1..]);
      assert buffer + Concat(chunks) == first + rest;
      FramesExtend(first, rest);
      DelimitersEndFrames(first);
      ReadFramesAppend(checks, Residue(first + rest), Residue(first), p, Frames(first), Frames(Residue(first) + rest));
      var next := OnChunk(checks, Reading(buffer, p), Some(chunks[0]));
      ReadFramesBuffer(checks, Residue(first), p, Frames(first));
      match next
      case Reading(b, q) => RunReadsFrames(checks, b, q, chunks[1..]);
      case Ended(_, _) => EndedStays(checks, next, chunks[1..]);
    }
  }

  /** However the bytes are cut, the bridge yields what reading the whole stream
      frame by frame yields, and keeps exactly the unfinished tail. */
  lemma {:induction false} ChunkingDoesNotMatter(checks: Checks, chunks: seq<Bytes>)
    requires Fits([], chunks)
    ensures Run(checks, Reading([], START), chunks) ==
            ReadFrames(checks, Residue(Concat(chunks)), START, Frames(Concat(chunks)))
  {
    RunReadsFrames(checks, [], START, chunks);
    assert [] + Concat(chunks) == Concat(chunks);
  }

  /** A chunk that does not fit ends the stream after everything before it. */
  lemma {:induction false} OversizeEnds(checks: Checks, before: seq<Bytes>, chunk: Bytes, after: seq<Bytes>)
    requires Fits([], before) && |Residue(Concat(before))| + |chunk| > MAX_FRAME
    ensures Run(checks, Reading([], START), before + [chunk] + after) ==
            match ReadFrames(checks, [], START, Frames(Concat(before)))
            case Reading(_, p) => Ended(p.delivered, FrameTooLarge)
            case Ended(d, e) => Ended(d, e)
  {
    var s := Run(checks, Reading([], START), before);
    ChunkingDoesNotMatter(checks, before);
    ReadFramesAppend(checks, Residue(Concat(before)), [], START, Frames(Concat(before)), []);
    assert Frames(Concat(before)) + [] == Frames(Concat(before));
    ReadFramesBuffer(checks, Residue(Concat(before)), START, Frames(Concat(before)));
    RunAppend(checks, Reading([], START), before, [chunk] + after);
    assert before + [chunk] + after == before + ([chunk] + after);
    assert ([chunk] + after)[1..] == after;
    EndedStays(checks, OnChunk(checks, s, Some(chunk)), after);
  }

  lemma {:induction false} RunAppend(checks: Checks, s: State, xs: seq<Bytes>, ys: seq<Bytes>)
    ensures Run(checks, s, xs + ys) == Run(checks, Run(checks, s, xs), ys)
    decreases |xs|
  {
    if xs == [] {
      assert xs + ys == ys;
    } else {
      assert (xs + ys)[0] == xs[0] && (xs + ys)[1..] == xs[1..] + ys;
      RunAppend(checks, OnChunk(checks, s, Some(xs[0])), xs[1..], ys);
    }
  }

  // ----- what any stream delivers -----

  /** Sequence 1..n on one stream of one identity. */
  ghost predicate Numbered(checks: Checks, bodies: seq<Bytes>) {
    && (forall k :: 0 <= k < |bodies| ==> checks.decode(bodies[k]).Some?)
    && (forall k :: 0 <= k < |bodies| ==>
          checks.decode(bodies[k]).value == checks.decode(bodies[0]).value.(sequence := k + 1))
  }

  ghost predicate Consistent(checks: Checks, p: Progress) {
    && Numbered(checks, p.delivered)
    && p.sequence == |p.delivered|
    && (p.sequence > 0 ==>
          checks.decode(p.delivered[0]).value == Envelope(p.identity, p.streamId, 1))
  }

  lemma {:induction false} ContinueKeepsConsistent(checks: Checks, p: Progress, e: Envelope, body: Bytes)
    requires Consistent(checks, p) && checks.decode(body) == Some(e)
    ensures Continue(p, e, body).Accepted? ==> Consistent(checks, Continue(p, e, body).progress)
    ensures Continue(p, e, body).Accepted? <==> Numbered(checks, p.delivered + [body])
  {
    var all := p.delivered + [body];
    assert all[|p.delivered|] == body;
    assert forall k :: 0 <= k < |p.delivered| ==> all[k] == p.delivered[k];
  }

  function DeliveredOf(s: State): seq<Bytes> {
    match s
    case Reading(_, p) => p.delivered
    case Ended(d, _) => d
  }

  /** Whatever the upstream sends, the payloads yielded are numbered from one
      without a gap, on one stream, under one identity. */
  lemma {:induction false} DeliveredIsNumbered(checks: Checks, buffer: Bytes, p: Progress, frames: seq<Bytes>)
    requires Consistent(checks, p)
    ensures Numbered(checks, DeliveredOf(ReadFrames(checks, buffer, p, frames)))
    ensures p.delivered <= DeliveredOf(ReadFrames(checks, buffer, p, frames))
    decreases |frames|
  {
    if frames != [] && ReadFrame(checks, p, frames[0]).Accepted? {
      AcceptedKeepsConsistent(checks, p, frames[0]);
      DeliveredIsNumbered(checks, buffer, ReadFrame(checks, p, frames[0]).progress, frames[1..]);
    }
  }

  lemma {:induction false} AcceptedKeepsConsistent(checks: Checks, p: Progress, frame: Bytes)
    requires Consistent(checks, p) && ReadFrame(checks, p, frame).Accepted?
    ensures Consistent(checks, ReadFrame(checks, p, frame).progress)
    ensures p.delivered <= ReadFrame(checks, p, frame).progress.delivered
  {
    if frame == [] || frame[0] != ':' {
      var body := frame[|PREFIX|..|frame| - 2];
      ContinueKeepsConsistent(checks, p, checks.decode(body).value, body);
    }
  }

  // ----- printed streams come back -----

  /** What the API writes: keep-alive comments and payload events. */
  datatype Item = Comment(text: Bytes) | Payload(body: Bytes)

  function Head(i: Item): Bytes {
    if i.Comment? then ":" else PREFIX
  }

  function Content(i: Item): Bytes {
    if i.Comment? then i.text else i.body
  }

  function Print(i: Item): Bytes {
    Head(i) + Content(i) + "\n\n"
  }

  function PrintAll(items: seq<Item>): seq<Bytes> {
    if items == [] then [] else [Print(items[0])] + PrintAll(items[1..])
  }

  function Bodies(items: seq<Item>): seq<Bytes> {
    if items == [] then []
    else (if items[0].Payload? then [items[0].body] else []) + Bodies(items[1..])
  }

  /** No blank line inside, and none formed with the event's own ending. */
  ghost predicate OneParagraph(text: Bytes) {
    forall j: nat :: !BlankLineAt(text + "\n", j)
  }

  lemma {:induction false} PrintedFrameEnds(i: Item, rest: Bytes)
    requires OneParagraph(Content(i))
    ensures FindBlankLine(Print(i) + rest) == Some(|Print(i)| - 2)
  {
    var s, h, c := Print(i) + rest, Head(i), Content(i);
    assert s == h + (c + "\n") + ("\n" + rest);
    forall j: nat | j < |h| + |c| ensures !BlankLineAt(s, j) {
      if j < |h| {
        assert s[j] == h[j] && (j + 1 < |h| ==> s[j + 1] == h[j + 1]);
      } else {
        assert s[j] == (c + "\n")[j - |h|] && s[j + 1] == (c + "\n")[j - |h| + 1];
        assert !BlankLineAt(c + "\n", j - |h|);
      }
    }
    FirstBlankLine(s, |h| + |c|);
  }

  lemma {:induction false} PrintedFrames(items: seq<Item>)
    requires forall k :: 0 <= k < |items| ==> OneParagraph(Content(items[k]))
    ensures Frames(Concat(PrintAll(items))) == PrintAll(items) && Residue(Concat(PrintAll(items))) == []
    decreases |items|
  {
    if items != [] {
      var first, rest := Print(items[0]), Concat(PrintAll(items[1..]));
      PrintedFrameEnds(items[0], rest);
      ConcatCons(first, PrintAll(items[1..]));
      FramesStep(first + rest);
      assert (first + rest)[..|first|] == first && (first + rest)[|first|..] == rest;
      PrintedFrames(items[1..]);
    }
  }

  ghost predicate Readable(checks: Checks, i: Item) {
    checks.utf8(Print(i)) && (i.Payload? ==> checks.decode(i.body).Some?)
  }

  lemma {:induction false} ReadPrinted(checks: Checks, p: Progress, i: Item)
    requires Readable(checks, i)
    ensures ReadFrame(checks, p, Print(i)) ==
            if i.Comment? then Accepted(p) else Continue(p, checks.decode(i.body).value, i.body)
  {
    var frame := Print(i);
    if i.Payload? {
      assert PREFIX <= frame && frame[0] == PREFIX[0];
      assert frame[|PREFIX|..|frame| - 2] == i.body && frame[|frame| - 2..] == "\n\n";
    }
  }

  /** Everything arrives exactly when it is numbered; otherwise continuity is
      lost after a proper prefix. */
  ghost predicate DeliversOrLoses(checks: Checks, all: seq<Bytes>, r: State) {
    && (r.Reading? <==> Numbered(checks, all))
    && (r.Reading? ==> r.progress.delivered == all && r.progress.sequence == |all|)
    && (r.Ended? ==> r.error == ContinuityLost && r.delivered < all)
  }

  lemma {:induction false} ReadPrintedPayload(checks: Checks, p: Progress, body: Bytes, later: seq<Bytes>)
    requires Consistent(checks, p) && checks.decode(body).Some?
    ensures var c := Continue(p, checks.decode(body).value, body);
            if c.Accepted? then
              Consistent(checks, c.progress) && c.progress.delivered + later == p.delivered + ([body] + later)
            else
              c.error == ContinuityLost && !Numbered(checks, p.delivered + ([body] + later))
  {
    ContinueKeepsConsistent(checks, p, checks.decode(body).value, body);
    assert p.delivered + ([body] + later) == (p.delivered + [body]) + later;
    if Numbered(checks, (p.delivered + [body]) + later) {
      NumberedPrefix(checks, p.delivered + [body], later);
    }
  }

  lemma {:induction false} ReadAllPrinted(checks: Checks, p: Progress, items: seq<Item>)
    requires Consistent(checks, p) && forall k :: 0 <= k < |items| ==> Readable(checks, items[k])
    ensures DeliversOrLoses(checks, p.delivered + Bodies(items), ReadFrames(checks, [], p, PrintAll(items)))
    decreases |items|
  {
    if items == [] {
      assert p.delivered + Bodies(items) == p.delivered;
    } else {
      var later := Bodies(items[1..]);
      ReadFramesCons(checks, [], p, Print(items[0]), PrintAll(items[1..]));
      ReadPrinted(checks, p, items[0]);
      if items[0].Comment? {
        assert Bodies(items) == later;
        ReadAllPrinted(checks, p, items[1..]);
      } else {
        var c := Continue(p, checks.decode(items[0].body).value, items[0].body);
        ReadPrintedPayload(checks, p, items[0].body, later);
        if c.Accepted? {
          ReadAllPrinted(checks, c.progress, items[1..]);
        } else {
          assert p.delivered < p.delivered + Bodies(items);
        }
      }
    }
  }

  /** The round trip: events and comments written as server-sent text and cut in
      any way that fits come back as exactly their bodies, numbered 1..n, when
      the producer numbered them so; otherwise the stream ends with continuity
      lost after a proper prefix. */
  lemma {:induction false} PrintedStreamRoundTrip(checks: Checks, items: seq<Item>, chunks: seq<Bytes>)
    requires forall k :: 0 <= k < |items| ==> OneParagraph(Content(items[k])) && Readable(checks, items[k])
    requires Concat(chunks) == Concat(PrintAll(items)) && Fits([], chunks)
    ensures DeliversOrLoses(checks, Bodies(items), Run(checks, Reading([], START), chunks))
  {
    ChunkingDoesNotMatter(checks, chunks);
    PrintedFrames(items);
    ReadAllPrinted(checks, START, items);
    assert [] + Bodies(items) == Bodies(items);
  }

  // ----- how every stream ends -----

  /** These frames are the print of these readable items. */
  ghost predicate Shows(checks: Checks, frames: seq<Bytes>, items: seq<Item>) {
    frames == PrintAll(items) && forall k :: 0 <= k < |items| ==> Readable(checks, items[k])
  }

  ghost predicate IsReadable(checks: Checks, frame: Bytes) {
    exists i :: frame == Print(i) && Readable(checks, i)
  }

  predicate EndsBlank(frame: Bytes) {
    |frame| >= 2 && frame[|frame| - 2..] == "\n\n"
  }

  /** A frame that is no comment and no event whose payload is valid, or is not
      UTF-8, is refused as unavailable. */
  lemma {:induction false} UnreadableIsRefused(checks: Checks, p: Progress, frame: Bytes)
    requires EndsBlank(frame) && !IsReadable(checks, frame)
    ensures ReadFrame(checks, p, frame) == Rejected(Unavailable)
  {
    if checks.utf8(frame) {
      if frame[0] == ':' {
        var i := Comment(frame[1..|frame| - 2]);
        assert frame == Print(i) && Readable(checks, i);
      } else if PREFIX <= frame && |frame| >= |PREFIX| + 2 {
        var i := Payload(frame[|PREFIX|..|frame| - 2]);
        assert frame == Print(i);
        assert !Readable(checks, i);
      }
    }
  }

  lemma {:induction false} FramesEndBlank(s: Bytes, k: nat)
    requires k < |Frames(s)|
    ensures EndsBlank(Frames(s)[k])
  {
    DelimitersEndFrames(s);
    var f := Frames(s)[k];
    assert BlankLineAt(f, |f| - 2);
  }

  lemma {:induction false} BodiesCons(i: Item, items: seq<Item>)
    ensures Bodies([i] + items) == (if i.Payload? then [i.body] else []) + Bodies(items)
    ensures PrintAll([i] + items) == [Print(i)] + PrintAll(items)
  {
    assert ([i] + items)[1..] == items;
  }

  lemma {:induction false} BodiesOfMore(items: seq<Item>, i: Item)
    ensures Bodies(items + [i]) == Bodies(items) + (if i.Payload? then [i.body] else [])
    ensures PrintAll(items + [i]) == PrintAll(items) + [Print(i)]
  {
    hide Print;
    if items == [] {
      assert items + [i] == [i] && [i][1..] == [];
    } else {
      BodiesOfMore(items[1..], i);
      assert items == [items[0]] + items[1..] && items + [i] == [items[0]] + (items[1..] + [i]);
      BodiesCons(items[0], items[1..]);
      BodiesCons(items[0], items[1..] + [i]);
      hide PrintAll, Bodies;
      assert forall a: seq<Bytes>, b: seq<Bytes>, c: seq<Bytes> :: a + (b + c) == (a + b) + c;
    }
  }

  /** What the frames do once these readable, numbered items have been read. */
  lemma {:induction false} ReadOn(checks: Checks, buffer: Bytes, items: seq<Item>, rest: seq<Bytes>) returns (p: Progress)
    requires (forall k :: 0 <= k < |items| ==> Readable(checks, items[k])) && Numbered(checks, Bodies(items))
    ensures Consistent(checks, p) && p.delivered == Bodies(items)
    ensures ReadFrames(checks, buffer, START, PrintAll(items) + rest) == ReadFrames(checks, buffer, p, rest)
  {
    ReadAllPrinted(checks, START, items);
    assert [] + Bodies(items) == Bodies(items);
    var r := ReadFrames(checks, [], START, PrintAll(items));
    p := r.progress;
    ReadFramesAppend(checks, buffer, [], START, PrintAll(items), rest);
    ReadKeepsConsistent(checks, [], START, PrintAll(items));
  }

  lemma {:induction false} ReadKeepsConsistent(checks: Checks, buffer: Bytes, p: Progress, frames: seq<Bytes>)
    requires Consistent(checks, p) && ReadFrames(checks, buffer, p, frames).Reading?
    ensures Consistent(checks, ReadFrames(checks, buffer, p, frames).progress)
    decreases |frames|
  {
    if frames != [] {
      AcceptedKeepsConsistent(checks, p, frames[0]);
      ReadKeepsConsistent(checks, buffer, ReadFrame(checks, p, frames[0]).progress, frames[1..]);
    }
  }

  /** Reading one more frame once the numbered bodies of `items` are delivered. */
  lemma {:induction false} NextFrame(checks: Checks, buffer: Bytes, p: Progress, items: seq<Item>, frame: Bytes,
                                     later: seq<Bytes>)
    requires Consistent(checks, p) && p.delivered == Bodies(items) && EndsBlank(frame)
    ensures !IsReadable(checks, frame) ==>
              ReadFrames(checks, buffer, p, [frame] + later) == Ended(Bodies(items), Unavailable)
    ensures forall i :: frame == Print(i) && Readable(checks, i) && !Numbered(checks, Bodies(items + [i])) ==>
                          ReadFrames(checks, buffer, p, [frame] + later) == Ended(Bodies(items), ContinuityLost)
  {
    hide ReadFrame, ReadFrames, Readable, Print, Numbered, EndsBlank, Bodies, IsReadable;
    ReadFramesCons(checks, buffer, p, frame, later);
    if !IsReadable(checks, frame) {
      UnreadableIsRefused(checks, p, frame);
    }
    forall i | frame == Print(i) && Readable(checks, i) && !Numbered(checks, Bodies(items + [i]))
      ensures ReadFrame(checks, p, frame) == Rejected(ContinuityLost)
    {
      OutOfOrderIsRefused(checks, p, items, i);
    }
  }

  lemma {:induction false} OutOfOrderIsRefused(checks: Checks, p: Progress, items: seq<Item>, i: Item)
    requires Consistent(checks, p) && p.delivered == Bodies(items)
    requires Readable(checks, i) && !Numbered(checks, Bodies(items + [i]))
    ensures ReadFrame(checks, p, Print(i)) == Rejected(ContinuityLost)
  {
    hide ReadFrame, Print, Numbered, Bodies;
    ReadPrinted(checks, p, i);
    BodiesOfMore(items, i);
    assert i.Payload? by {
      assert Numbered(checks, p.delivered);
      assert Bodies(items) + [] == Bodies(items);
    }
    ContinueKeepsConsistent(checks, p, checks.decode(i.body).value, i.body);
  }

  /** What the next frame makes of a stream that has delivered the bodies of `items`:
      with none it goes on; one that is not readable ends it as unavailable, and a
      readable one out of order ends it with continuity lost. */
  ghost predicate Decides(checks: Checks, frames: seq<Bytes>, items: seq<Item>, buffer: Bytes, r: State)
    requires |items| <= |frames|
  {
    if |items| == |frames| then r.Reading? && r.buffer == buffer && r.progress.delivered == Bodies(items)
    else
      && (!IsReadable(checks, frames[|items|]) ==> r == Ended(Bodies(items), Unavailable))
      && (forall i :: frames[|items|] == Print(i) && Readable(checks, i) && !Numbered(checks, Bodies(items + [i])) ==>
            r == Ended(Bodies(items), ContinuityLost))
  }

  lemma {:induction false} FrameDecides(checks: Checks, buffer: Bytes, frames: seq<Bytes>, items: seq<Item>)
    requires |items| <= |frames| && Shows(checks, frames[..|items|], items) && Numbered(checks, Bodies(items))
    requires forall k :: 0 <= k < |frames| ==> EndsBlank(frames[k])
    ensures Decides(checks, frames, items, buffer, ReadFrames(checks, buffer, START, frames))
  {
    hide ReadFrame, ReadFrames, Readable, Print, PrintAll, Numbered, Bodies, IsReadable, EndsBlank;
    var rest := frames[|items|..];
    assert frames == PrintAll(items) + rest;
    var p := ReadOn(checks, buffer, items, rest);
    if rest == [] {
      NothingMore(checks, buffer, p);
    } else {
      assert rest == [rest[0]] + rest[1..] && rest[0] == frames[|items|];
      NextFrame(checks, buffer, p, items, rest[0], rest[1..]);
    }
  }

  /** Whatever frames of a stream have been read, the next one decides. */
  lemma {:induction false} NextFrameDecides(checks: Checks, chunks: seq<Bytes>, items: seq<Item>)
    requires Fits([], chunks) && |items| <= |Frames(Concat(chunks))|
    requires Shows(checks, Frames(Concat(chunks))[..|items|], items) && Numbered(checks, Bodies(items))
    ensures Decides(checks, Frames(Concat(chunks)), items, Residue(Concat(chunks)), Run(checks, Reading([], START), chunks))
  {
    var all := Concat(chunks);
    hide *;
    ChunkingDoesNotMatter(checks, chunks);
    forall k | 0 <= k < |Frames(all)| ensures EndsBlank(Frames(all)[k]) {
      FramesEndBlank(all, k);
    }
    FrameDecides(checks, Residue(all), Frames(all), items);
  }

  lemma {:induction false} NothingMore(checks: Checks, buffer: Bytes, p: Progress)
    ensures ReadFrames(checks, buffer, p, []) == Reading(buffer, p)
  {
  }

  lemma {:induction false} ShowsMore(checks: Checks, frames: seq<Bytes>, items: seq<Item>, i: Item)
    requires |items| < |frames| && Shows(checks, frames[..|items|], items)
    requires frames[|items|] == Print(i) && Readable(checks, i)
    ensures Shows(checks, frames[..|items| + 1], items + [i])
  {
    hide Readable, Print;
    BodiesOfMore(items, i);
    assert frames[..|items| + 1] == frames[..|items|] + [frames[|items|]];
  }

  /** One of the three always applies: the longest such run of items. */
  lemma {:induction false} LongestReading(checks: Checks, frames: seq<Bytes>) returns (items: seq<Item>)
    ensures |items| <= |frames| && Shows(checks, frames[..|items|], items) && Numbered(checks, Bodies(items))
    ensures |items| == |frames| || !IsReadable(checks, frames[|items|])
            || exists i :: frames[|items|] == Print(i) && Readable(checks, i) && !Numbered(checks, Bodies(items + [i]))
  {
    items := [];
    assert frames[..0] == [];
    assert Shows(checks, [], []) && Numbered(checks, Bodies([]));
    hide *;
    while |items| < |frames| && IsReadable(checks, frames[|items|])
      invariant |items| <= |frames| && Shows(checks, frames[..|items|], items) && Numbered(checks, Bodies(items))
      decreases |frames| - |items|
    {
      var i :| frames[|items|] == Print(i) && Readable(checks, i);
      if !Numbered(checks, Bodies(items + [i])) {
        return;
      }
      ShowsMore(checks, frames, items, i);
      items := items + [i];
    }
  }

  /** So a stream ends as unavailable exactly when, after readable frames numbered
      without a gap, one is not readable. */
  lemma {:induction false} UnavailableExactly(checks: Checks, chunks: seq<Bytes>, delivered: seq<Bytes>)
    requires Fits([], chunks)
    ensures var frames := Frames(Concat(chunks));
            Run(checks, Reading([], START), chunks) == Ended(delivered, Unavailable) <==>
            exists items :: |items| < |frames| && Shows(checks, frames[..|items|], items) && Numbered(checks, Bodies(items))
                            && !IsReadable(checks, frames[|items|]) && delivered == Bodies(items)
  {
    hide Frames, Residue, Run, Fits, Shows, Readable, Print, PrintAll, Numbered, Bodies, IsReadable, Concat;
    var frames := Frames(Concat(chunks));
    forall items | |items| < |frames| && Shows(checks, frames[..|items|], items) && Numbered(checks, Bodies(items))
                   && !IsReadable(checks, frames[|items|]) && delivered == Bodies(items)
      ensures Run(checks, Reading([], START), chunks) == Ended(delivered, Unavailable)
    {
      NextFrameDecides(checks, chunks, items);
    }
    var items := LongestReading(checks, frames);
    NextFrameDecides(checks, chunks, items);
  }

  /** The end of the body, a transport error or a missed deadline is unavailable too,
      and keeps what was delivered. */
  lemma {:induction false} MissingChunkEnds(checks: Checks, chunks: seq<Bytes>)
    ensures var s := Run(checks, Reading([], START), chunks);
            OnChunk(checks, s, None) == if s.Ended? then s else Ended(DeliveredOf(s), Unavailable)
  {
  }

  /** The limit is on buffer plus chunk, not on a frame: one large read of tiny
      frames ends a stream that arrives whole when it comes one frame at a time. */
  lemma {:induction false} LimitDependsOnChunks(checks: Checks, n: nat)
    requires checks.utf8(":\n\n")
    ensures var small := seq(n, _ => ":\n\n");
            Fits([], small) && Run(checks, Reading([], START), small) == Reading([], START)
    ensures 3 * n > MAX_FRAME ==>
              Run(checks, Reading([], START), [Concat(seq(n, _ => ":\n\n"))]) == Ended([], FrameTooLarge)
    decreases n
  {
    RepeatedLength(n);
    if n > 0 {
      var small := seq(n, _ => ":\n\n");
      assert small[0] == ":\n\n" && small[1..] == seq(n - 1, _ => ":\n\n");
      LimitDependsOnChunks(checks, n - 1);
      var frame := [] + small[0];
      FirstBlankLine(frame, 1);
      FramesStep(frame);
      assert frame == ":\n\n" && frame[..3] == frame && frame[3..] == [];
      ReadFramesCons(checks, [], START, frame, []);
      assert [frame] + [] == [frame];
    }
    var whole := [Concat(seq(n, _ => ":\n\n"))];
    assert whole[1..] == [];
  }

  lemma {:induction false} RepeatedLength(n: nat)
    ensures |Concat(seq(n, _ => ":\n\n"))| == 3 * n
  {
    if n > 0 {
      assert seq(n, _ => ":\n\n")[1..] == seq(n - 1, _ => ":\n\n");
      RepeatedLength(n - 1);
    }
  }

  lemma {:induction false} NumberedPrefix(checks: Checks, xs: seq<Bytes>, ys: seq<Bytes>)
    requires Numbered(checks, xs + ys)
    ensures Numbered(checks, xs)
  {
    assert forall k :: 0 <= k < |xs| ==> (xs + ys)[k] == xs[k];
  }
}
