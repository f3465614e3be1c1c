/** Desktop input: the legacy tap and click forms (`legacy_desktop_tap`,
    `legacy_desktop_click`), which turn form fields into one click request,
    and key routing (`_desktop_send_key`), which turns a key name into one
    virtual-key injection. The screen capture, the click itself and the key
    injection are collaborators: the monitor is an input, the click is a
    function from request to success, and injections are recorded. */
module Desktop {
  import opened Wrappers
  import opened Text
  import opened Guards

  // ---------------------------------------------------------------------
  // Coordinates.

  /** The captured monitor's placement and size. */
  datatype Monitor = Monitor(left: int, top: int, width: int, height: int)

  /** Division truncated toward zero, as Python's `int()` of a quotient. */
  function TruncDiv(a: int, b: int): (q: int)
    requires b > 0
    ensures a >= 0 ==> q * b <= a < (q + 1) * b
    ensures a < 0 ==> q == -((-a) / b)
  {
    if a >= 0 then a / b else -((-a) / b)
  }

  /** A coordinate on a rendering `rendered` wide moved to a screen `full`
      wide: `int(v * full / rendered)`. */
  function ScaleCoord(v: int, full: int, rendered: int): (r: int)
    requires rendered > 0
    ensures v * full >= 0 ==> r * rendered <= v * full < (r + 1) * rendered
    ensures v * full < 0 ==> (-r) * rendered <= -(v * full) < (-r + 1) * rendered
  {
    TruncDiv(v * full, rendered)
  }

  lemma MulMono(a: int, b: int, c: int)
    requires a <= b && c >= 0
    ensures a * c <= b * c
  {
    assert b * c - a * c == (b - a) * c;
  }

  /** For a positive divisor the truncated quotient of a non-negative number
      is non-negative. */
  lemma TruncDivNonneg(a: int, b: int)
    requires a >= 0 && b > 0
    ensures TruncDiv(a, b) >= 0
  {
    var q := TruncDiv(a, b);
    if q < 0 {
      MulMono(q + 1, 0, b);
    }
  }

  /** The scaled coordinate is the largest whole position not past the exact
      one, and a point on the rendering lands on the screen. */
  lemma ScaleCoordBounds(v: int, full: int, rendered: int)
    requires rendered > 0 && v >= 0 && full >= 0
    ensures var r := ScaleCoord(v, full, rendered);
      r * rendered <= v * full < (r + 1) * rendered
    ensures v <= rendered ==> 0 <= ScaleCoord(v, full, rendered) <= full
  {
    MulMono(0, v, full);
    var r := ScaleCoord(v, full, rendered);
    TruncDivNonneg(v * full, rendered);
    if v <= rendered {
      MulMono(v, rendered, full);
      assert rendered * full == full * rendered;
      if r > full {
        MulMono(full + 1, r, rendered);
      }
    }
  }

  /** Truncation is toward zero: a point left of or above the origin scales
      to minus the scaling of its mirror image. */
  lemma ScaleCoordOdd(v: int, full: int, rendered: int)
    requires rendered > 0
    ensures ScaleCoord(-v, full, rendered) == -ScaleCoord(v, full, rendered)
  {
    assert -v * full == -(v * full);
  }

  /** Scaling keeps the order of points. */
  lemma ScaleCoordMonotone(v1: int, v2: int, full: int, rendered: int)
    requires rendered > 0 && full >= 0 && 0 <= v1 <= v2
    ensures ScaleCoord(v1, full, rendered) <= ScaleCoord(v2, full, rendered)
  {
    MulMono(v1, v2, full);
    ScaleCoordBounds(v1, full, rendered);
    ScaleCoordBounds(v2, full, rendered);
    var r1, r2 := ScaleCoord(v1, full, rendered), ScaleCoord(v2, full, rendered);
    if r1 > r2 {
      MulMono(r2 + 1, r1, rendered);
    }
  }

  /** A rendering the size of the screen leaves coordinates unchanged. */
  lemma ScaleCoordSameSize(v: int, rendered: int)
    requires rendered > 0
    ensures ScaleCoord(v, rendered, rendered) == v
  {
    if v >= 0 {
      SameSizeNonneg(v, rendered);
    } else {
      ScaleCoordOdd(-v, rendered, rendered);
      SameSizeNonneg(-v, rendered);
    }
  }

  lemma SameSizeNonneg(v: int, rendered: int)
    requires rendered > 0 && v >= 0
    ensures ScaleCoord(v, rendered, rendered) == v
  {
    ScaleCoordBounds(v, rendered, rendered);
    var r := ScaleCoord(v, rendered, rendered);
    if r < v {
      MulMono(r + 1, v, rendered);
    } else if r > v {
      MulMono(v + 1, r, rendered);
    }
  }

  // ---------------------------------------------------------------------
  // Clicks.

  /** What is sent to the click collaborator: where (or the current pointer
      position when absent), which button, and whether to double-click. */
  datatype ClickRequest = ClickRequest(x: Option<int>, y: Option<int>, button: string, double: bool)

  /** The result page the legacy forms render: its status, whether the action
      succeeded, and a detail message. */
  datatype Page = Page(status: int, ok: bool, detail: string)

  /** The clicks sent, in order, and the page rendered. */
  datatype FormOutcome = FormOutcome(clicks: seq<ClickRequest>, page: Page)

  /** A form's `double` field: a double click only for a truthy value. */
  predicate DoubleClick(double: string) {
    ParseFlag(double) == Some(true)
  }

  /** The point a tap at (`tapX`, `tapY`) clicks: scaled from the rendering to
      the monitor when both rendering sizes are positive, else as given. A
      tap inside the rendering lands inside the monitor. */
  function TapPoint(tapX: int, tapY: int, renderW: int, renderH: int, mon: Monitor): (p: (int, int))
    ensures !(renderW > 0 && renderH > 0) ==> p == (tapX, tapY)
    ensures renderW > 0 && renderH > 0
      ==> p == (ScaleCoord(tapX, mon.width, renderW), ScaleCoord(tapY, mon.height, renderH))
    ensures renderW > 0 && renderH > 0 && 0 <= tapX <= renderW && 0 <= tapY <= renderH
      && mon.width >= 0 && mon.height >= 0
      ==> 0 <= p.0 <= mon.width && 0 <= p.1 <= mon.height
  {
    if renderW > 0 && renderH > 0 then
      var p := (ScaleCoord(tapX, mon.width, renderW), ScaleCoord(tapY, mon.height, renderH));
      assert 0 <= tapX <= renderW && 0 <= tapY <= renderH && mon.width >= 0 && mon.height >= 0
        ==> 0 <= p.0 <= mon.width && 0 <= p.1 <= mon.height by {
        if 0 <= tapX <= renderW && 0 <= tapY <= renderH && mon.width >= 0 && mon.height >= 0 {
          ScaleCoordBounds(tapX, mon.width, renderW);
          ScaleCoordBounds(tapY, mon.height, renderH);
        }
      }
      p
    else (tapX, tapY)
  }

  /** `legacy_desktop_tap(tap_x, tap_y, render_w, render_h, button, double)`:
      exactly one click, at the tap point, and a 200 page carrying the
      click's success. */
  function LegacyDesktopTap(tapX: int, tapY: int, renderW: int, renderH: int, button: string, double: string,
                            mon: Monitor, click: ClickRequest -> bool): (o: FormOutcome)
    ensures |o.clicks| == 1
    ensures var c := o.clicks[0];
      && c.x == Some(TapPoint(tapX, tapY, renderW, renderH, mon).0)
      && c.y == Some(TapPoint(tapX, tapY, renderW, renderH, mon).1)
      && c.button == button && (c.double <==> DoubleClick(double))
    ensures o.page.status == 200 && o.page.ok == click(o.clicks[0])
  {
    var p := TapPoint(tapX, tapY, renderW, renderH, mon);
    var req := ClickRequest(Some(p.0), Some(p.1), button, DoubleClick(double));
    FormOutcome([req], Page(200, click(req), ""))
  }

  /** On a 1920x1080 monitor: a tap at (44, 55) with no rendering size clicks
      (44, 55); a tap at (210, 118) on a 420x236 rendering clicks (960, 540);
      `double` `0` is a single click. */
  lemma TapSamples(click: ClickRequest -> bool)
    requires click(ClickRequest(Some(44), Some(55), "left", false))
    ensures var o := LegacyDesktopTap(44, 55, 0, 0, "left", "0", Monitor(0, 0, 1920, 1080), click);
      o.clicks == [ClickRequest(Some(44), Some(55), "left", false)] && o.page == Page(200, true, "")
    ensures var o := LegacyDesktopTap(210, 118, 420, 236, "left", "0", Monitor(0, 0, 1920, 1080), click);
      o.clicks == [ClickRequest(Some(960), Some(540), "left", false)] && o.page.status == 200
  {
    assert !IsTruthy("0") by { assert "0"[0] != "1"[0]; }
    assert ScaleCoord(210, 1920, 420) == 960;
    assert ScaleCoord(118, 1080, 236) == 540;
  }

  /** Why a click form was refused. */
  datatype ClickError = NotPaired | NotIntegers

  /** The detail message of a refused click form. */
  function ClickErrorDetail(e: ClickError): string {
    match e
    case NotPaired => "x and y must be provided together"
    case NotIntegers => "x and y must be integers"
  }

  /** The coordinates of a click form: none, both as integers, or an error. */
  function ClickCoords(x: string, y: string): (r: Result<Option<(int, int)>, ClickError>)
    ensures r == Err(NotPaired) <==> (x == "") != (y == "")
    ensures r == Ok(None) <==> x == "" && y == ""
    ensures r.Ok? && r.value.Some? ==> ParseInt(x) == Some(r.value.value.0) && ParseInt(y) == Some(r.value.value.1)
    ensures r == Err(NotIntegers) <==> x != "" && y != "" && (ParseInt(x).None? || ParseInt(y).None?)
  {
    if (x == "") != (y == "") then Err(NotPaired)
    else if x == "" then Ok(None)
    else if ParseInt(x).None? || ParseInt(y).None? then Err(NotIntegers)
    else Ok(Some((ParseInt(x).value, ParseInt(y).value)))
  }

  /** `legacy_desktop_click(button, double, x, y)`: a refused form is a 400
      page with no click; otherwise one click and a 200 page carrying its
      success. */
  function LegacyDesktopClick(button: string, double: string, x: string, y: string,
                              click: ClickRequest -> bool): (o: FormOutcome)
    ensures ClickCoords(x, y).Err? ==> o == FormOutcome([], Page(400, false, ClickErrorDetail(ClickCoords(x, y).error)))
    ensures ClickCoords(x, y).Ok? ==> (|o.clicks| == 1 && o.page == Page(200, click(o.clicks[0]), "")
      && o.clicks[0].button == button && (o.clicks[0].double <==> DoubleClick(double)))
    ensures ClickCoords(x, y) == Ok(None) ==> o.clicks[0].x.None? && o.clicks[0].y.None?
    ensures ClickCoords(x, y).Ok? && ClickCoords(x, y).value.Some?
      ==> o.clicks[0].x == Some(ClickCoords(x, y).value.value.0) && o.clicks[0].y == Some(ClickCoords(x, y).value.value.1)
  {
    match ClickCoords(x, y)
    case Err(e) => FormOutcome([], Page(400, false, ClickErrorDetail(e)))
    case Ok(p) =>
      var req := if p.Some? then ClickRequest(Some(p.value.0), Some(p.value.1), button, DoubleClick(double))
                 else ClickRequest(None, None, button, DoubleClick(double));
      FormOutcome([req], Page(200, click(req), ""))
  }

  /** A written coordinate reaches the click as the integer it spells. */
  lemma ClickCoordsRoundTrip(x: int, y: int)
    ensures ClickCoords(IntToString(x), IntToString(y)) == Ok(Some((x, y)))
  {
    ParseIntOfString(x);
    ParseIntOfString(y);
    assert |IntToString(x)| > 0 && |IntToString(y)| > 0;
  }

  /** `x=120` with an empty `y`: a 400 page, not ok, whose detail says the
      coordinates must be provided together, and no click. */
  lemma ClickUnpairedSample(click: ClickRequest -> bool)
    ensures var o := LegacyDesktopClick("left", "0", "120", "", click);
      o.clicks == [] && o.page.status == 400 && !o.page.ok
      && Contains(o.page.detail, "provided together")
  {
    ContainsInfix("x and y must be ", "provided together", "");
    assert "x and y must be " + "provided together" + "" == ClickErrorDetail(NotPaired);
  }

  // ---------------------------------------------------------------------
  // Keys.

  /** Key names sent as one virtual key. */
  const NativeKeys: map<string, nat> := map[
    "backspace" := 0x08, "tab" := 0x09, "enter" := 0x0D, "escape" := 0x1B,
    "space" := 0x20, "end" := 0x23, "home" := 0x24, "left" := 0x25,
    "up" := 0x26, "right" := 0x27, "down" := 0x28, "delete" := 0x2E]

  /** Key names sent as a modifier held down with one more key. */
  const ComboKeys: map<string, seq<nat>> := map[
    "ctrl+a" := [0x11, 0x41], "ctrl+c" := [0x11, 0x43], "ctrl+v" := [0x11, 0x56],
    "ctrl+z" := [0x11, 0x5A], "alt+tab" := [0x12, 0x09]]

  datatype KeyMode = Native | NativeCombo

  /** One call into the key-injection collaborator. */
  datatype Injection = SendVk(code: nat) | SendVkCombo(codes: seq<nat>)

  datatype KeyResult = KeyResult(exitCode: int, mode: KeyMode, injected: seq<Injection>)

  datatype KeyError = UnsupportedKey(name: string)

  /** `_desktop_send_key(name)`: a single key is injected with one `SendVk`, a
      combination with one `SendVkCombo`; any other name is an error and
      nothing is injected. */
  function DesktopSendKey(name: string): (r: Result<KeyResult, KeyError>)
    ensures r.Ok? <==> name in NativeKeys || name in ComboKeys
    ensures r.Ok? ==> r.value.exitCode == 0 && |r.value.injected| == 1
    ensures name in NativeKeys ==> r.value.mode == Native && r.value.injected[0] == SendVk(NativeKeys[name])
    ensures name in ComboKeys ==> r.value.mode == NativeCombo && r.value.injected[0] == SendVkCombo(ComboKeys[name])
    ensures r.Err? ==> r.error == UnsupportedKey(name)
  {
    KeyTablesDisjoint(name);
    if name in NativeKeys then Ok(KeyResult(0, Native, [SendVk(NativeKeys[name])]))
    else if name in ComboKeys then Ok(KeyResult(0, NativeCombo, [SendVkCombo(ComboKeys[name])]))
    else Err(UnsupportedKey(name))
  }

  /** No name is both a single key and a combination, so the routing does not
      depend on which table is consulted first. */
  lemma KeyTablesDisjoint(name: string)
    ensures !(name in NativeKeys && name in ComboKeys)
  {
    if name in ComboKeys {
      assert '+' in name;
      assert forall k | k in NativeKeys :: '+' !in k;
    }
  }

  /** Every combination is a modifier (shift, ctrl or alt) followed by one
      key that is not a modifier. */
  lemma ComboShape(name: string)
    requires name in ComboKeys
    ensures var codes := ComboKeys[name];
      |codes| == 2 && 0x10 <= codes[0] <= 0x12 && !(0x10 <= codes[1] <= 0x12)
  {
  }

  /** `backspace` is one native key, `ctrl+a` one combination, and `capslock`
      is refused. */
  lemma SendKeySamples()
    ensures DesktopSendKey("backspace") == Ok(KeyResult(0, Native, [SendVk(0x08)]))
    ensures DesktopSendKey("ctrl+a") == Ok(KeyResult(0, NativeCombo, [SendVkCombo([0x11, 0x41])]))
    ensures DesktopSendKey("capslock") == Err(UnsupportedKey("capslock"))
  {
    assert "capslock" !in NativeKeys && "capslock" !in ComboKeys;
  }
}
