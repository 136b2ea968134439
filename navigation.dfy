/** The interactive loop's view state: pan position, centring offset and
    zoom, updated by key presses and re-centred after every event. Widths and
    heights are in logical pixels; a terminal row holds two logical rows. */
module Navigation {
  import opened Sampling

  datatype KeyCode = Char(c: char) | Esc | OtherKey
  datatype KeyEventKind = Press | Repeat | Release
  datatype Event = Key(code: KeyCode, kind: KeyEventKind) | OtherEvent

  datatype ViewState = ViewState(pos: (nat, nat), offset: (nat, nat), zoom: real)

  /** What one event does to the loop: leave it, or continue in a state. */
  datatype Step = Quit | Continue(state: ViewState)

  /** Fixed for a session: the image size at zoom 1 and the terminal size
      (columns, and rows * 2) measured when the session started. */
  datatype Session = Session(width: nat, height: nat, startWidth: nat, startHeight: nat)
  {
    /** The canonical buffer has positive dimensions. */
    predicate Valid() { width > 0 && height > 0 }
  }

  const ZOOM_STEP: real := 0.01
  const MIN_ZOOM: real := 0.01

  function Min(a: real, b: real): real { if a < b then a else b }
  function Max(a: real, b: real): real { if a < b then b else a }

  /** The fit-to-window choice: zoom 1 when the image fits the terminal,
      otherwise the smaller of the two axis ratios. */
  function FitZoom(twidth: nat, theight: nat, iwidth: nat, iheight: nat): (z: real)
    requires iwidth > 0 && iheight > 0
    ensures iwidth <= twidth && iheight <= theight <==> z == 1.0
    ensures 0.0 <= z <= 1.0
    ensures iwidth as real * z <= twidth as real && iheight as real * z <= theight as real
    ensures z == 1.0 || iwidth as real * z == twidth as real || iheight as real * z == theight as real
  {
    if iwidth > twidth || iheight > theight then
      var z1 := (twidth as real) / (iwidth as real);
      var z2 := (theight as real) / (iheight as real);
      assert iwidth as real * z1 == twidth as real;
      assert iheight as real * z2 == theight as real;
      assert iwidth > twidth ==> z1 < 1.0;
      assert iheight > theight ==> z2 < 1.0;
      if z1 < z2 then
        assert iheight as real * z1 <= iheight as real * z2;
        z1
      else
        assert iwidth as real * z2 <= iwidth as real * z1;
        z2
    else
      1.0
  }

  /** A zoom that scales `b` to at most `a` is at most the ratio a / b. */
  lemma RatioBound(a: real, b: real, z: real)
    requires b > 0.0 && b * z <= a
    ensures z <= a / b
  {
    assert b * (a / b) == a;
  }

  /** No larger zoom of at most 1 keeps both axes inside the terminal. */
  lemma FitZoomIsLargest(twidth: nat, theight: nat, iwidth: nat, iheight: nat, z: real)
    requires iwidth > 0 && iheight > 0
    requires 0.0 <= z <= 1.0
    requires iwidth as real * z <= twidth as real && iheight as real * z <= theight as real
    ensures z <= FitZoom(twidth, theight, iwidth, iheight)
  {
    if iwidth > twidth || iheight > theight {
      RatioBound(twidth as real, iwidth as real, z);
      RatioBound(theight as real, iheight as real, z);
    }
  }

  /** At the fitted zoom the truncated image size fits the terminal. */
  lemma FittedSizeFits(session: Session)
    requires session.Valid()
    ensures var z := FitZoom(session.startWidth, session.startHeight, session.width, session.height);
            var s := Size(session.width, session.height, z);
            s.0 <= session.startWidth && s.1 <= session.startHeight
  {
  }

  /** The fit can choose a zoom below the 0.01 floor that the zoom-out key
      enforces: a 10000-pixel-wide image in an 80-column terminal. */
  lemma FitZoomCanUndercutFloor()
    ensures FitZoom(80, 48, 10000, 10) < MIN_ZOOM
  {
  }

  /** The post-event re-centring: on each axis where the scaled image is
      smaller than the terminal, pan resets to 0 and the offset centres it;
      the other axis keeps its pan and offset. The vertical offset counts
      terminal rows while the heights count logical rows, hence the 4. */
  function Recentred(s: ViewState, twidth: nat, theight: nat, iwidth: nat, iheight: nat): (t: ViewState)
    ensures t.zoom == s.zoom
    ensures iwidth < twidth ==>
              t.pos.0 == 0 && 2 * t.offset.0 + iwidth <= twidth < 2 * t.offset.0 + iwidth + 2
    ensures iwidth >= twidth ==> t.pos.0 == s.pos.0 && t.offset.0 == s.offset.0
    ensures iheight < theight ==>
              t.pos.1 == 0 && 4 * t.offset.1 + iheight <= theight < 4 * t.offset.1 + iheight + 4
    ensures iheight >= theight ==> t.pos.1 == s.pos.1 && t.offset.1 == s.offset.1
  {
    var (px, ox) := if iwidth < twidth then (0, (twidth - iwidth) / 2) else (s.pos.0, s.offset.0);
    var (py, oy) := if iheight < theight then (0, (theight - iheight) / 4) else (s.pos.1, s.offset.1);
    ViewState((px, py), (ox, oy), s.zoom)
  }

  /** Re-centring twice against the same sizes changes nothing more. */
  lemma RecentredIdempotent(s: ViewState, twidth: nat, theight: nat, iwidth: nat, iheight: nat)
    ensures var t := Recentred(s, twidth, theight, iwidth, iheight);
            Recentred(t, twidth, theight, iwidth, iheight) == t
  {
  }

  /** The state a session starts in (main.rs lines 20-42). */
  function Initial(session: Session): (s: ViewState)
    requires session.Valid()
    ensures s.pos == (0, 0)
    ensures s.zoom == FitZoom(session.startWidth, session.startHeight, session.width, session.height)
    ensures var (iwidth, iheight) := Size(session.width, session.height, s.zoom);
            s.offset.0 == (if iwidth < session.startWidth then (session.startWidth - iwidth) / 2 else 0) &&
            s.offset.1 == (if iheight < session.startHeight then (session.startHeight - iheight) / 4 else 0)
  {
    var z := FitZoom(session.startWidth, session.startHeight, session.width, session.height);
    var (iwidth, iheight) := Size(session.width, session.height, z);
    var ox := if iwidth < session.startWidth then (session.startWidth - iwidth) / 2 else 0;
    var oy := if iheight < session.startHeight then (session.startHeight - iheight) / 4 else 0;
    ViewState((0, 0), (ox, oy), z)
  }

  /** The initial state is the fitted zoom with pan at the origin, centred
      as the per-event re-centring would centre it, so re-centring it in an
      unchanged terminal is a no-op. */
  lemma InitialIsCentred(session: Session)
    requires session.Valid()
    ensures var s := Initial(session);
            var (iwidth, iheight) := Size(session.width, session.height, s.zoom);
            s.zoom == FitZoom(session.startWidth, session.startHeight, session.width, session.height) &&
            s.pos == (0, 0) &&
            s == Recentred(ViewState((0, 0), (0, 0), s.zoom), session.startWidth, session.startHeight, iwidth, iheight) &&
            Recentred(s, session.startWidth, session.startHeight, iwidth, iheight) == s
  {
    FittedSizeFits(session);
  }

  predicate IsPress(ev: Event, c: char)
  {
    ev.Key? && ev.kind == Press && ev.code == Char(c)
  }

  /** The keys the loop's if/else chain has a branch for. */
  predicate Listed(code: KeyCode)
  {
    code == Esc || (code.Char? && code.c in {'q', '+', '=', '-', '_', 'h', 'a', 'l', 'd', 'k', 'w', 'j', 's', ' '})
  }

  /** The key handling of one loop iteration. Only `Press` events act;
      unlisted keys and other events leave the state unchanged. Space resets
      to the fit computed against the session's starting terminal size. */
  function KeyStep(s: ViewState, ev: Event, session: Session): (r: Step)
    requires session.Valid()
    ensures r.Quit? <==> ev.Key? && ev.kind == Press && (ev.code == Char('q') || ev.code == Esc)
    ensures !(ev.Key? && ev.kind == Press) ==> r == Continue(s)
    ensures ev.Key? && ev.kind == Press && !Listed(ev.code) ==> r == Continue(s)
    ensures r.Continue? && !IsPress(ev, ' ') ==> r.state.offset == s.offset
    ensures (IsPress(ev, '-') || IsPress(ev, '_')) ==>
              r.Continue? && r.state.zoom == Max(MIN_ZOOM, s.zoom - ZOOM_STEP) &&
              r.state.pos == s.pos
    ensures (IsPress(ev, '+') || IsPress(ev, '=')) ==>
              r == Continue(s.(zoom := s.zoom + ZOOM_STEP))
    ensures (IsPress(ev, 'h') || IsPress(ev, 'a')) ==>
              r.Continue? && r.state.zoom == s.zoom && r.state.pos.1 == s.pos.1 &&
              (if s.pos.0 == 0 then r.state == s else r.state.pos.0 + 1 == s.pos.0)
    ensures (IsPress(ev, 'j') || IsPress(ev, 's')) ==>
              r.Continue? && r.state.zoom == s.zoom && r.state.pos.0 == s.pos.0 &&
              (if s.pos.1 == 0 then r.state == s else r.state.pos.1 + 1 == s.pos.1)
    ensures (IsPress(ev, 'l') || IsPress(ev, 'd')) ==>
              r == Continue(s.(pos := (s.pos.0 + 1, s.pos.1)))
    ensures (IsPress(ev, 'k') || IsPress(ev, 'w')) ==>
              r == Continue(s.(pos := (s.pos.0, s.pos.1 + 1)))
    ensures IsPress(ev, ' ') ==>
              r == Continue(ViewState((0, 0), (0, 0),
                FitZoom(session.startWidth, session.startHeight, session.width, session.height)))
  {
    if !(ev.Key? && ev.kind == Press) then Continue(s)
    else
      var code := ev.code;
      if code == Char('q') || code == Esc then Quit
      else if code == Char('+') || code == Char('=') then
        Continue(s.(zoom := s.zoom + ZOOM_STEP))
      else if code == Char('-') || code == Char('_') then
        var z := s.zoom - ZOOM_STEP;
        Continue(s.(zoom := if z < MIN_ZOOM then MIN_ZOOM else z))
      else if code == Char('h') || code == Char('a') then
        Continue(if s.pos.0 > 0 then s.(pos := (s.pos.0 - 1, s.pos.1)) else s)
      else if code == Char('l') || code == Char('d') then
        Continue(s.(pos := (s.pos.0 + 1, s.pos.1)))
      else if code == Char('k') || code == Char('w') then
        Continue(s.(pos := (s.pos.0, s.pos.1 + 1)))
      else if code == Char('j') || code == Char('s') then
        Continue(if s.pos.1 > 0 then s.(pos := (s.pos.0, s.pos.1 - 1)) else s)
      else if code == Char(' ') then
        Continue(ViewState((0, 0), (0, 0),
          FitZoom(session.startWidth, session.startHeight, session.width, session.height)))
      else
        Continue(s)
  }

  /** The event read in one loop iteration and the terminal size (columns,
      rows) measured right after it. */
  datatype Frame = Frame(event: Event, columns: nat, rows: nat)

  /** One iteration after drawing: handle the event, then re-centre against
      the freshly measured terminal at the image's size for the new zoom. */
  function Iterate(s: ViewState, f: Frame, session: Session): (r: Step)
    requires session.Valid()
    ensures r.Quit? <==> KeyStep(s, f.event, session).Quit?
    ensures r.Continue? ==> r.state.zoom == KeyStep(s, f.event, session).state.zoom
    ensures r.Continue? ==>
              r.state == Recentred(KeyStep(s, f.event, session).state, f.columns, f.rows * 2,
                                   Size(session.width, session.height, r.state.zoom).0,
                                   Size(session.width, session.height, r.state.zoom).1)
  {
    match KeyStep(s, f.event, session)
    case Quit => Quit
    case Continue(t) =>
      var (iwidth, iheight) := Size(session.width, session.height, t.zoom);
      Continue(Recentred(t, f.columns, f.rows * 2, iwidth, iheight))
  }

  /** The state the loop is in after a run of frames, stopping at a quit. */
  function Run(s: ViewState, frames: seq<Frame>, session: Session): (r: ViewState)
    requires session.Valid()
    ensures frames == [] ==> r == s
    ensures frames != [] && Iterate(s, frames[0], session).Quit? ==> r == s
    decreases |frames|
  {
    if frames == [] then s
    else match Iterate(s, frames[0], session)
      case Quit => s
      case Continue(t) => Run(t, frames[1..], session)
  }

  /** Whether a run of frames reaches a quit. */
  predicate Quits(s: ViewState, frames: seq<Frame>, session: Session)
    requires session.Valid()
    decreases |frames|
  {
    frames != [] &&
    match Iterate(s, frames[0], session)
    case Quit => true
    case Continue(t) => Quits(t, frames[1..], session)
  }

  /** The loop runs its frames one after the other, and once it has quit
      no later frame has any effect. */
  lemma {:induction false} RunConcat(s: ViewState, a: seq<Frame>, b: seq<Frame>, session: Session)
    requires session.Valid()
    ensures Quits(s, a, session) ==> Run(s, a + b, session) == Run(s, a, session)
    ensures !Quits(s, a, session) ==> Run(s, a + b, session) == Run(Run(s, a, session), b, session)
    decreases |a|
  {
    if a == [] {
      assert a + b == b;
    } else {
      assert (a + b)[0] == a[0];
      assert (a + b)[1..] == a[1..] + b;
      match Iterate(s, a[0], session)
      case Quit =>
      case Continue(t) =>
        RunConcat(t, a[1..], b, session);
    }
  }

  /** The lowest zoom a session can reach: the 0.01 floor, or the fit if
      that is lower. */
  predicate ZoomInRange(s: ViewState, session: Session)
    requires session.Valid()
  {
    s.zoom >= Min(MIN_ZOOM, FitZoom(session.startWidth, session.startHeight, session.width, session.height))
  }

  /** The zoom never drops below the floor (or the fit, when that is lower),
      whatever the events and terminal resizes. */
  lemma {:induction false} RunKeepsZoomInRange(s: ViewState, frames: seq<Frame>, session: Session)
    requires session.Valid() && ZoomInRange(s, session)
    ensures ZoomInRange(Run(s, frames, session), session)
    decreases |frames|
  {
    if frames != [] {
      match Iterate(s, frames[0], session)
      case Quit =>
      case Continue(t) =>
        assert ZoomInRange(t, session);
        RunKeepsZoomInRange(t, frames[1..], session);
    }
  }

  /** Any positive number of zoom-out presses leaves the zoom at 0.01 or
      above, starting from any zoom. */
  lemma {:induction false} ZoomOutPressesKeepFloor(s: ViewState, frames: seq<Frame>, session: Session)
    requires session.Valid() && |frames| > 0
    requires forall i :: 0 <= i < |frames| ==> IsPress(frames[i].event, '-') || IsPress(frames[i].event, '_')
    ensures Run(s, frames, session).zoom >= MIN_ZOOM
    decreases |frames|
  {
    assert IsPress(frames[0].event, '-') || IsPress(frames[0].event, '_');
    match Iterate(s, frames[0], session)
    case Quit =>
    case Continue(t) =>
      if |frames| > 1 {
        ZoomOutPressesKeepFloor(t, frames[1..], session);
      }
  }

  /** The mutable locals of the interactive loop. */
  class Viewer {
    var pos: (nat, nat)
    var offset: (nat, nat)
    var zoom: real
    const session: Session

    function State(): ViewState
      reads this
    {
      ViewState(pos, offset, zoom)
    }

    ghost predicate Valid()
      reads this
    {
      session.Valid() && ZoomInRange(State(), session)
    }

    /** Session start: fit the image to the terminal, pan at the origin,
        and centre on every axis with room to spare. */
    constructor (width: nat, height: nat, columns: nat, rows: nat)
      requires width > 0 && height > 0
      ensures Valid()
      ensures session == Session(width, height, columns, rows * 2)
      ensures State() == Initial(session)
    {
      session := Session(width, height, columns, rows * 2);
      var twidth := columns;
      var theight := rows * 2;
      var z := 1.0;
      var (iwidth, iheight) := Size(width, height, z);
      if iwidth > twidth || iheight > theight {
        var z1 := (twidth as real) / (iwidth as real);
        var z2 := (theight as real) / (iheight as real);
        z := if z1 < z2 then z1 else z2;
        var (w, h) := Size(width, height, z);
        iwidth, iheight := w, h;
      }
      zoom := z;
      pos := (0, 0);
      offset := (0, 0);
      new;
      if iwidth < twidth {
        offset := ((twidth - iwidth) / 2, offset.1);
      }
      if iheight < theight {
        offset := (offset.0, (theight - iheight) / 4);
      }
    }

    /** The if/else chain on one event; `quit` is the `break`. */
    method HandleEvent(ev: Event) returns (quit: bool)
      requires Valid()
      modifies this
      ensures Valid()
      ensures quit <==> KeyStep(old(State()), ev, session).Quit?
      ensures quit ==> State() == old(State())
      ensures !quit ==> State() == KeyStep(old(State()), ev, session).state
    {
      quit := false;
      if ev.Key? && ev.kind == Press {
        var code := ev.code;
        if code == Char('q') || code == Esc {
          quit := true;
        } else if code == Char('+') || code == Char('=') {
          zoom := zoom + ZOOM_STEP;
        } else if code == Char('-') || code == Char('_') {
          zoom := zoom - ZOOM_STEP;
          if zoom < MIN_ZOOM {
            zoom := MIN_ZOOM;
          }
        } else if code == Char('h') || code == Char('a') {
          if pos.0 > 0 {
            pos := (pos.0 - 1, pos.1);
          }
        } else if code == Char('l') || code == Char('d') {
          pos := (pos.0 + 1, pos.1);
        } else if code == Char('k') || code == Char('w') {
          pos := (pos.0, pos.1 + 1);
        } else if code == Char('j') || code == Char('s') {
          if pos.1 > 0 {
            pos := (pos.0, pos.1 - 1);
          }
        } else if code == Char(' ') {
          zoom := 1.0;
          offset := (0, 0);
          pos := (0, 0);
          var (iwidth, iheight) := Size(session.width, session.height, zoom);
          var twidth, theight := session.startWidth, session.startHeight;
          if iwidth > twidth || iheight > theight {
            var z1 := (twidth as real) / (iwidth as real);
            var z2 := (theight as real) / (iheight as real);
            zoom := if z1 < z2 then z1 else z2;
          }
        }
      }
    }

    /** The end of every iteration: measure the terminal again and re-centre
        each axis on which the image at the current zoom is smaller. */
    method Recenter(columns: nat, rows: nat)
      requires Valid()
      modifies this
      ensures Valid()
      ensures State() == Recentred(old(State()), columns, rows * 2,
                                   Size(session.width, session.height, zoom).0,
                                   Size(session.width, session.height, zoom).1)
    {
      var twidth := columns;
      var theight := rows * 2;
      var (iwidth, iheight) := Size(session.width, session.height, zoom);
      if iwidth < twidth {
        pos := (0, pos.1);
        offset := ((twidth - iwidth) / 2, offset.1);
      }
      if iheight < theight {
        pos := (pos.0, 0);
        offset := (offset.0, (theight - iheight) / 4);
      }
    }
  }
}
