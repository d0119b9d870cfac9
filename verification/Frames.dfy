/** The website video: one simulator tick every 20 ms, drawn at 60 frames a second
    with linear interpolation one tick behind. */
module Frames {
  import opened Options

  const FPS: nat := 60
  const TICK_MS: nat := 20

  datatype Body = Body(id: nat, x: real, y: real, angle: real)

  /** A public observation: its tick and its bodies. */
  datatype Snapshot = Snapshot(tick: nat, bodies: seq<Body>)

  /** Half a turn; any positive number will do here. */
  type HalfTurn = pi: real | pi > 0.0 witness 1.0

  function Lower(a: real, b: real): real { if a <= b then a else b }
  function Upper(a: real, b: real): real { if a >= b then a else b }

  /** Python's `%` on floats with a positive modulus. */
  function Modulo(a: real, m: real): (r: real)
    requires m > 0.0
    ensures 0.0 <= r < m
    ensures r == a - (a / m).Floor as real * m
  {
    FloorTimes(a, m, (a / m).Floor);
    a - (a / m).Floor as real * m
  }

  lemma FloorTimes(a: real, m: real, q: int)
    requires m > 0.0 && q == (a / m).Floor
    ensures q as real * m <= a < q as real * m + m
  {
    var t, w := a / m, q as real;
    assert t * m == a;
    ScaleUp(w, t, m);
    Above(a, m, t, w);
  }

  lemma Above(a: real, m: real, t: real, w: real)
    requires m > 0.0 && t * m == a && t < w + 1.0
    ensures a < w * m + m
  {
    var x := w + 1.0 - t;
    Positive(x, m);
    assert x * m == w * m + m - t * m;
  }

  lemma Positive(x: real, m: real)
    requires m > 0.0 && x > 0.0
    ensures x * m > 0.0
  {}

  lemma ScaleUp(a: real, b: real, m: real)
    requires a <= b && m > 0.0
    ensures a * m <= b * m
  {}

  /** The turn from one angle to another, as lines 177-181 compute it. */
  function Turn(pi: HalfTurn, from: real, to: real): real {
    var delta := Folded(pi, from, to);
    if delta < 0.0 - pi then delta + pi * 2.0 else delta
  }

  /** The turn before the last test, at line 180. */
  function Folded(pi: HalfTurn, from: real, to: real): real {
    var delta := Modulo(to - from, pi * 2.0);
    if delta > pi then delta - pi * 2.0 else delta
  }

  ghost predicate WholeTurns(pi: HalfTurn, a: real, b: real, k: int) {
    a == b + k as real * (pi * 2.0)
  }

  ghost predicate SameDirection(pi: HalfTurn, a: real, b: real) {
    exists k :: WholeTurns(pi, a, b, k)
  }

  /** The turn is the one in (-pi, pi] that leads, up to whole turns, to the target;
      the last correction is never needed. */
  lemma TurnIsShortest(pi: HalfTurn, from: real, to: real)
    ensures 0.0 - pi < Turn(pi, from, to) <= pi
    ensures SameDirection(pi, from + Turn(pi, from, to), to)
    ensures Turn(pi, from, to) == Folded(pi, from, to)
  {
    var m := pi * 2.0;
    var q := ((to - from) / m).Floor;
    var delta := Modulo(to - from, m);
    assert WholeTurns(pi, from + delta, to, -q);
    assert delta - m == Turn(pi, from, to) || delta == Turn(pi, from, to);
    assert WholeTurns(pi, from + (delta - m), to, -q - 1);
  }

  /** `{int(body["id"]): body}` looked up: the last body with the id. */
  function Lookup(bodies: seq<Body>, id: nat): Option<Body> {
    if bodies == [] then None
    else if bodies[|bodies| - 1].id == id then Some(bodies[|bodies| - 1])
    else Lookup(bodies[..|bodies| - 1], id)
  }

  /** One body drawn `alpha` of the way from its old pose. */
  function Blend(pi: HalfTurn, was: Option<Body>, body: Body, alpha: real): Body {
    match was
    case None => body
    case Some(o) =>
      Body(body.id, o.x + (body.x - o.x) * alpha, o.y + (body.y - o.y) * alpha, o.angle
          + Turn(pi, o.angle, body.angle) * alpha)
  }

  function BlendAll(pi: HalfTurn, before: seq<Body>, bodies: seq<Body>, alpha: real): (r: seq<Body>)
    ensures |r| == |bodies|
  {
    seq(|bodies|, i requires 0 <= i < |bodies| => Blend(pi, Lookup(before, bodies[i].id), bodies[i], alpha))
  }

  function Alpha(previous: Snapshot, current: Snapshot, videoMs: real): real {
    var gap := current.tick - previous.tick;
    Lower(1.0,
        Upper(0.0, (videoMs - (current.tick * TICK_MS) as real) / Lower(60.0, Upper(20.0, (gap * TICK_MS) as real))))
  }

  /** `interpolated_bodies` */
  method InterpolatedBodies(pi: HalfTurn, previous: Option<Snapshot>, current: Snapshot, videoMs: real)
      returns (rendered: seq<Body>)
    ensures rendered == Interpolated(pi, previous, current, videoMs)
  {
    if previous.None? || previous.value.tick == current.tick { return current.bodies; }
    var gap := current.tick - previous.value.tick;
    if gap <= 0 || gap > 4 { return current.bodies; }
    var alpha := Alpha(previous.value, current, videoMs);
    rendered := [];
    for i := 0 to |current.bodies|
      invariant rendered == BlendAll(pi, previous.value.bodies, current.bodies, alpha)[..i]
    {
      rendered := rendered + [Blend(pi, Lookup(previous.value.bodies, current.bodies[i].id), current.bodies[i], alpha)];
    }
  }

  function Interpolated(pi: HalfTurn, previous: Option<Snapshot>, current: Snapshot, videoMs: real): seq<Body> {
    if previous.None? || !(0 < current.tick - previous.value.tick <= 4) then current.bodies
    else BlendAll(pi, previous.value.bodies, current.bodies, Alpha(previous.value, current, videoMs))
  }

  /** The replay: the observation after each number of action words. */
  type Replay = nat -> Snapshot

  /** Each action word plays one tick. */
  ghost predicate OneTickEach(replay: Replay) {
    forall n :: replay(n).tick == n
  }

  /** What a viewer should see at real time `t`, in ticks: the straight line between
      the two snapshots around it. */
  function Playback(pi: HalfTurn, replay: Replay, t: real): seq<Body>
    requires t >= 0.0
  {
    var n := t.Floor;
    BlendAll(pi, replay(n).bodies, replay(n + 1).bodies, t - n as real)
  }

  function Target(frame: nat): nat { frame * 1000 / (FPS * TICK_MS) }

  function FrameCount(words: nat): nat { words * TICK_MS * FPS / 1000 + 1 }

  lemma TargetIs(frame: nat)
    ensures Target(frame) == 5 * frame / 6
  {}

  lemma FrameCountIs(words: nat)
    ensures FrameCount(words) == 6 * words / 5 + 1
  {}

  /** A frame asks for at most one word more than the last, and never for more than
      there are: the clamp at line 528 does not bind. */
  lemma TargetSteps(frame: nat, words: nat)
    requires frame < FrameCount(words)
    ensures Target(frame) <= words
    ensures frame > 0 ==> Target(frame - 1) <= Target(frame) <= Target(frame - 1) + 1
  {
    TargetIs(frame);
    FrameCountIs(words);
    if frame > 0 { TargetIs(frame - 1); }
  }

  /** The interpolation weight of a frame is the fraction of its tick; neither clamp
      binds. */
  lemma AlphaIs(replay: Replay, frame: nat)
    requires OneTickEach(replay) && Target(frame) >= 1
    ensures var tick := Target(frame); var ms := (frame * 1000) as real / FPS as real;
      && Alpha(replay(tick - 1), replay(tick), ms) == (5 * frame) as real / 6.0 - tick as real
      && 0.0 <= (5 * frame) as real / 6.0 - tick as real < 1.0
  {
    var tick := Target(frame);
    TargetIs(frame);
    assert 6 * tick <= 5 * frame < 6 * tick + 6;
    var ms := (frame * 1000) as real / 60.0;
    assert ms == (5 * frame) as real / 6.0 * 20.0;
    assert (ms - (tick * 20) as real) / 20.0 == (5 * frame) as real / 6.0 - tick as real;
  }

  /** What is drawn in each frame: the first tick's stretch shows the start, and from
      then on the exact linear playback, one tick behind. */
  function Drawn(pi: HalfTurn, replay: Replay, frame: nat): seq<Body> {
    if Target(frame) == 0 then replay(0).bodies
    else
      TargetIs(frame);
      Playback(pi, replay, (5 * frame) as real / 6.0 - 1.0)
  }

  lemma DrawnIs(pi: HalfTurn, replay: Replay, frame: nat)
    requires OneTickEach(replay) && Target(frame) >= 1
    ensures Interpolated(pi, Some(replay(Target(frame) - 1)), replay(Target(frame)),
      (frame * 1000) as real / FPS as real)
      == Drawn(pi, replay, frame)
  {
    AlphaIs(replay, frame);
    var tick := Target(frame);
    var t := (5 * frame) as real / 6.0 - 1.0;
    assert t.Floor == tick - 1;
  }

  /** The action loop of one frame. */
  method StepTo(replay: Replay, previous0: Option<Snapshot>, current0: Snapshot, consumed: nat, target: nat)
      returns (previous: Option<Snapshot>, current: Snapshot)
    requires consumed <= target && current0 == replay(consumed)
    requires previous0 == if consumed == 0 then None else Some(replay(consumed - 1))
    ensures current == replay(target)
    ensures previous == if target == 0 then None else Some(replay(target - 1))
  {
    previous, current := previous0, current0;
    for index := consumed to target
      invariant current == replay(index)
      invariant previous == if index == 0 then None else Some(replay(index - 1))
    {
      previous := Some(current);
      current := replay(index + 1);
    }
  }

  /** One frame: play the words that are due, then draw. */
  method DrawFrame(pi: HalfTurn, replay: Replay, words: nat, frame: nat, previous0: Option<Snapshot>,
      current0: Snapshot, consumed0: nat)
      returns (previous: Option<Snapshot>, current: Snapshot, consumed: nat, drawn: seq<Body>)
    requires OneTickEach(replay) && frame < FrameCount(words)
    requires consumed0 == (if frame == 0 then 0 else Target(frame - 1)) && current0 == replay(consumed0)
    requires previous0 == if consumed0 == 0 then None else Some(replay(consumed0 - 1))
    ensures consumed == Target(frame) && consumed0 <= consumed <= consumed0 + 1
    ensures current == replay(consumed) && previous == if consumed == 0 then None else Some(replay(consumed - 1))
    ensures drawn == Drawn(pi, replay, frame)
  {
    var videoMs := (frame * 1000) as real / FPS as real;
    var due := frame * 1000 / (FPS * TICK_MS);
    var target := if words < due then words else due;
    TargetSteps(frame, words);
    TargetIs(frame);
    previous, current := StepTo(replay, previous0, current0, consumed0, target);
    consumed := target;
    if consumed > 0 { DrawnIs(pi, replay, frame); }
    drawn := InterpolatedBodies(pi, previous, current, videoMs);
  }

  /** The frame loop of `render`.  It draws the playback frame by frame, steps at most
      one word a frame, and consumes the whole trace exactly when the number of words
      is a multiple of five; otherwise one word is left and the renderer raises. */
  method Render(pi: HalfTurn, replay: Replay, words: nat)
      returns (frames: seq<seq<Body>>, consumed: nat, complete: bool)
    requires OneTickEach(replay)
    ensures |frames| == FrameCount(words)
    ensures forall f :: 0 <= f < |frames| ==> frames[f] == Drawn(pi, replay, f)
    ensures consumed == if words % 5 == 0 then words else words - 1
    ensures complete <==> words % 5 == 0
  {
    var current := replay(0);
    var previous: Option<Snapshot> := None;
    frames, consumed := [], 0;
    var count := FrameCount(words);
    for frame := 0 to count
      invariant |frames| == frame
      invariant consumed == (if frame == 0 then 0 else Target(frame - 1)) && current == replay(consumed)
      invariant previous == if consumed == 0 then None else Some(replay(consumed - 1))
      invariant forall f :: 0 <= f < frame ==> frames[f] == Drawn(pi, replay, f)
    {
      var drawn: seq<Body>;
      previous, current, consumed, drawn := DrawFrame(pi, replay, words, frame, previous, current, consumed);
      frames := frames + [drawn];
    }
    complete := consumed == words;
    LastTarget(words);
  }

  lemma LastTarget(words: nat)
    ensures Target(FrameCount(words) - 1) == if words % 5 == 0 then words else words - 1
  {
    TargetIs(FrameCount(words) - 1);
    FrameCountIs(words);
    var q, r := words / 5, words % 5;
    assert words == 5 * q + r;
    assert 6 * words / 5 == 6 * q + r;
    assert 5 * (6 * q + r) / 6 == 5 * q + 5 * r / 6;
  }

  /** The body looked up is the last one with the id. */
  ghost predicate LastWith(bodies: seq<Body>, id: nat, i: nat) {
    i < |bodies| && bodies[i].id == id && forall j :: i < j < |bodies| ==> bodies[j].id != id
  }

  lemma {:induction false} LookupExact(bodies: seq<Body>, id: nat)
    ensures Lookup(bodies, id).None? <==> forall i :: 0 <= i < |bodies| ==> bodies[i].id != id
    ensures forall i: nat :: LastWith(bodies, id, i) ==> Lookup(bodies, id) == Some(bodies[i])
    ensures Lookup(bodies, id).Some? ==> exists i: nat :: LastWith(bodies, id, i)
  {
    if bodies != [] {
      var n := |bodies| - 1;
      if bodies[n].id == id {
        assert LastWith(bodies, id, n);
      } else {
        LookupExact(bodies[..n], id);
        forall i: nat ensures LastWith(bodies, id, i) <==> LastWith(bodies[..n], id, i) {}
      }
    }
  }

  /** A turn by at most half a circle that leads from one angle to another. */
  ghost predicate ShortTurn(pi: HalfTurn, from: real, to: real, turn: real) {
    0.0 - pi < turn <= pi && SameDirection(pi, from + turn, to)
  }

  /** A pose `w` of the way from `a` to `b`, turning the short way. */
  ghost predicate Between(pi: HalfTurn, a: Body, b: Body, w: real, drawn: Body) {
    && drawn.id == b.id
    && drawn.x == (1.0 - w) * a.x + w * b.x
    && drawn.y == (1.0 - w) * a.y + w * b.y
    && exists turn :: ShortTurn(pi, a.angle, b.angle, turn) && drawn.angle == a.angle + turn * w
  }

  lemma Straight(a: real, b: real, w: real)
    ensures a + (b - a) * w == (1.0 - w) * a + w * b
  {}

  lemma BlendExact(pi: HalfTurn, a: Body, b: Body, w: real)
    ensures Between(pi, a, b, w, Blend(pi, Some(a), b, w))
  {
    TurnIsShortest(pi, a.angle, b.angle);
    Straight(a.x, b.x, w);
    Straight(a.y, b.y, w);
    assert ShortTurn(pi, a.angle, b.angle, Turn(pi, a.angle, b.angle));
  }

  /** The picture at real time `t`, body by body: every body of the next snapshot, in its
      order, as far from its own pose in the snapshot before as time has passed since;
      a body that was not there before is drawn where it is. */
  lemma PlaybackExact(pi: HalfTurn, replay: Replay, t: real, n: nat, k: nat)
    requires t >= 0.0 && n == t.Floor && k < |replay(n + 1).bodies|
    ensures |Playback(pi, replay, t)| == |replay(n + 1).bodies|
    ensures var body, drawn := replay(n + 1).bodies[k], Playback(pi, replay, t)[k];
      && (forall i: nat :: LastWith(replay(n).bodies, body.id, i) ==>
            Between(pi, replay(n).bodies[i], body, t - n as real, drawn))
      && ((forall i :: 0 <= i < |replay(n).bodies| ==> replay(n).bodies[i].id != body.id) ==> drawn == body)
  {
    var was, bodies, w := replay(n).bodies, replay(n + 1).bodies, t - n as real;
    LookupExact(was, bodies[k].id);
    assert Playback(pi, replay, t) == BlendAll(pi, was, bodies, w);
    BlendAllExact(pi, was, bodies, w, k);
  }

  lemma BlendAllExact(pi: HalfTurn, was: seq<Body>, bodies: seq<Body>, w: real, k: nat)
    requires k < |bodies|
    ensures forall i: nat :: LastWith(was, bodies[k].id, i) ==>
      Between(pi, was[i], bodies[k], w, BlendAll(pi, was, bodies, w)[k])
    ensures Lookup(was, bodies[k].id).None? ==> BlendAll(pi, was, bodies, w)[k] == bodies[k]
  {
    LookupExact(was, bodies[k].id);
    forall i: nat | LastWith(was, bodies[k].id, i)
      ensures Between(pi, was[i], bodies[k], w, BlendAll(pi, was, bodies, w)[k])
    {
      BlendExact(pi, was[i], bodies[k], w);
    }
  }
}
