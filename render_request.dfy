/** Validation of a POST to the render route: five checks in a fixed order,
    the first failure answered with 400 and no job created. */
module RenderRequest {
  import opened Wrappers
  import opened JsNumbers
  import Text

  datatype Format = MP4 | GIF

  /** One entry of the RESOLUTIONS table: pixel size and display name. */
  datatype Resolution = Resolution(width: nat, height: nat, name: string)

  const ResolutionKeys: seq<string> := ["HD_Vertical", "Square", "HD_Horizontal"]

  /** The RESOLUTIONS table, own keys only. (The source's labels are Arabic
      display names; they are given here in English.) */
  function LookupResolution(key: string): (r: Option<Resolution>)
    ensures r.Some? <==> key in ResolutionKeys
    ensures r.Some? ==> r.value.width % 2 == 0 && r.value.height % 2 == 0
  {
    if key == "HD_Vertical" then Some(Resolution(1080, 1920, "Reels/TikTok"))
    else if key == "Square" then Some(Resolution(1080, 1080, "Square"))
    else if key == "HD_Horizontal" then Some(Resolution(1920, 1080, "Horizontal"))
    else None
  }

  /** Property names every object literal inherits from Object.prototype;
      `RESOLUTIONS[name]` is a truthy function or object for each of them. */
  const InheritedNames: set<string> := {
    "constructor", "__defineGetter__", "__defineSetter__", "hasOwnProperty",
    "__lookupGetter__", "__lookupSetter__", "isPrototypeOf", "propertyIsEnumerable",
    "toString", "valueOf", "__proto__", "toLocaleString"
  }

  /** The request body after destructuring. An absent field is `None` and
      takes the source's default; html, css and js default to "". */
  datatype Request = Request(
    html: string, css: string, js: string,
    resolution: Option<string>, format: Option<string>,
    duration: Option<Num>, fps: Option<Num>)

  const MaxHtmlLength := 500000
  const DefaultResolution := "HD_Vertical"
  const DefaultFormat := "MP4"
  const DefaultDuration: real := 15.0
  const DefaultFps: real := 30.0

  /** `parseInt(process.env.X) || fallback`: an unparsable (NaN) or zero
      value falls back. */
  function ConfiguredLimit(parsed: Option<int>, fallback: int): int {
    if parsed.None? || parsed.value == 0 then fallback else parsed.value
  }

  datatype Rejection =
    | HtmlInvalid
    | DurationOutOfRange(maxDuration: int)
    | UnsupportedResolution
    | FpsOutOfRange(maxFps: int)
    | UnsupportedFormat

  /** A request that passed validation, with defaults applied. */
  datatype RenderJob = RenderJob(
    html: string, css: string, js: string,
    resolutionKey: string, resolution: Resolution, format: Format,
    duration: real, fps: real)

  function DurationOf(req: Request): Num { req.duration.GetOr(Finite(DefaultDuration)) }
  function FpsOf(req: Request): Num { req.fps.GetOr(Finite(DefaultFps)) }
  function ResolutionKeyOf(req: Request): string { req.resolution.GetOr(DefaultResolution) }
  function FormatOf(req: Request): string { req.format.GetOr(DefaultFormat) }

  function ParseFormat(s: string): Option<Format> {
    if s == "MP4" then Some(MP4) else if s == "GIF" then Some(GIF) else None
  }

  /** `!html || html.length > 500000` rejects; the length is counted in
      UTF-16 code units. */
  predicate HtmlOk(req: Request) {
    req.html != "" && Text.Utf16Length(req.html) <= MaxHtmlLength
  }

  /** A number inside [1, max], which NaN never is. */
  predicate InRange(n: Num, max: int) {
    n.Finite? && 1.0 <= n.value <= max as real
  }

  /** The checks in the source's order, each stated as it is written there:
      `x < 1 || x > max` rejects, and `RESOLUTIONS[key]` is looked up with
      inheritance. Returns the rejection, or None when the request passes. */
  function CheckAsWritten(req: Request, maxDuration: int, maxFps: int): (r: Option<Rejection>)
    ensures r == Some(HtmlInvalid) <==> !HtmlOk(req)
    ensures r.None? ==>
              && HtmlOk(req)
              && (ResolutionKeyOf(req) in ResolutionKeys || ResolutionKeyOf(req) in InheritedNames)
              && ParseFormat(FormatOf(req)).Some?
    ensures r.None? && DurationOf(req).Finite? ==> 1.0 <= DurationOf(req).value <= maxDuration as real
    ensures r.None? && FpsOf(req).Finite? ==> 1.0 <= FpsOf(req).value <= maxFps as real
  {
    if !HtmlOk(req) then Some(HtmlInvalid)
    else if Below(DurationOf(req), 1.0) || Above(DurationOf(req), maxDuration as real) then
      Some(DurationOutOfRange(maxDuration))
    else if !(ResolutionKeyOf(req) in ResolutionKeys || ResolutionKeyOf(req) in InheritedNames) then
      Some(UnsupportedResolution)
    else if Below(FpsOf(req), 1.0) || Above(FpsOf(req), maxFps as real) then
      Some(FpsOutOfRange(maxFps))
    else if ParseFormat(FormatOf(req)).None? then Some(UnsupportedFormat)
    else None
  }

  /** The validation as intended: the same checks in the same order, where a
      number must lie in range (so NaN is refused) and the resolution must be
      one of the table's own keys. */
  function Validate(req: Request, maxDuration: int, maxFps: int): (r: Result<RenderJob, Rejection>)
    ensures r == Failure(HtmlInvalid) <==> !HtmlOk(req)
    ensures r == Failure(DurationOutOfRange(maxDuration)) <==>
              HtmlOk(req) && !InRange(DurationOf(req), maxDuration)
    ensures r == Failure(UnsupportedResolution) <==>
              HtmlOk(req) && InRange(DurationOf(req), maxDuration) && ResolutionKeyOf(req) !in ResolutionKeys
    ensures r == Failure(FpsOutOfRange(maxFps)) <==>
              HtmlOk(req) && InRange(DurationOf(req), maxDuration) && ResolutionKeyOf(req) in ResolutionKeys
              && !InRange(FpsOf(req), maxFps)
    ensures r.Success? <==>
              HtmlOk(req) && InRange(DurationOf(req), maxDuration) && ResolutionKeyOf(req) in ResolutionKeys
              && InRange(FpsOf(req), maxFps) && ParseFormat(FormatOf(req)).Some?
    ensures r == Failure(UnsupportedFormat) <==>
              HtmlOk(req) && InRange(DurationOf(req), maxDuration) && ResolutionKeyOf(req) in ResolutionKeys
              && InRange(FpsOf(req), maxFps) && ParseFormat(FormatOf(req)).None?
    ensures r.Success? ==>
              && r.value.html == req.html && r.value.css == req.css && r.value.js == req.js
              && r.value.duration == DurationOf(req).value && 1.0 <= r.value.duration <= maxDuration as real
              && r.value.fps == FpsOf(req).value && 1.0 <= r.value.fps <= maxFps as real
              && r.value.resolutionKey == ResolutionKeyOf(req) && r.value.resolutionKey in ResolutionKeys
              && Some(r.value.resolution) == LookupResolution(r.value.resolutionKey)
              && Some(r.value.format) == ParseFormat(FormatOf(req))
  {
    if !HtmlOk(req) then Failure(HtmlInvalid)
    else if !InRange(DurationOf(req), maxDuration) then Failure(DurationOutOfRange(maxDuration))
    else if LookupResolution(ResolutionKeyOf(req)).None? then Failure(UnsupportedResolution)
    else if !InRange(FpsOf(req), maxFps) then Failure(FpsOutOfRange(maxFps))
    else match ParseFormat(FormatOf(req))
      case None => Failure(UnsupportedFormat)
      case Some(format) =>
        Success(RenderJob(req.html, req.css, req.js, ResolutionKeyOf(req),
                          LookupResolution(ResolutionKeyOf(req)).value, format,
                          DurationOf(req).value, FpsOf(req).value))
  }

  /** Where durations and fps are numbers and the resolution key is not an
      inherited name, the corrected validation decides exactly as the
      source does, with the same rejection. */
  lemma ValidateAgreesWithSource(req: Request, maxDuration: int, maxFps: int)
    requires DurationOf(req).Finite? && FpsOf(req).Finite?
    requires ResolutionKeyOf(req) !in InheritedNames
    ensures CheckAsWritten(req, maxDuration, maxFps).None? <==> Validate(req, maxDuration, maxFps).Success?
    ensures CheckAsWritten(req, maxDuration, maxFps).Some? ==>
              Validate(req, maxDuration, maxFps) == Failure(CheckAsWritten(req, maxDuration, maxFps).value)
  {
  }

  /** With the limits read as the route reads them, a setting that is
      unset, unparsable or not negative still admits a one-second render
      at one frame per second. */
  lemma ConfiguredLimitsAdmitMinimum(html: string, durationSetting: Option<int>, fpsSetting: Option<int>)
    requires HtmlOk(Minimal(html))
    requires durationSetting.Some? ==> durationSetting.value >= 0
    requires fpsSetting.Some? ==> fpsSetting.value >= 0
    ensures ConfiguredLimit(durationSetting, 60) >= 1 && ConfiguredLimit(fpsSetting, 60) >= 1
    ensures Validate(Minimal(html).(duration := Some(Finite(1.0)), fps := Some(Finite(1.0))),
                     ConfiguredLimit(durationSetting, 60), ConfiguredLimit(fpsSetting, 60)).Success?
  {
    assert "HD_Vertical" in ResolutionKeys;
  }

  /** Markup of n emoji (or any characters outside the Basic Multilingual
      Plane) counts 2n toward the limit, so at most 250000 of them pass. */
  lemma AstralHtmlLimit(c: char, n: nat)
    requires c as int >= 0x1_0000 && n >= 1
    ensures HtmlOk(Minimal(Text.Fill(c, n))) <==> n <= MaxHtmlLength / 2
  {
    Text.AstralCountsTwice(c, n);
  }

  /** The request every default applies to, with the given markup. */
  function Minimal(html: string): Request {
    Request(html, "", "", None, None, None, None)
  }

  /** Finding: the source accepts a resolution named after an inherited
      property, for which the table holds no size; the corrected validation
      refuses it. */
  lemma InheritedResolutionAccepted()
    ensures CheckAsWritten(Minimal("<p></p>").(resolution := Some("constructor")), 60, 60).None?
    ensures Validate(Minimal("<p></p>").(resolution := Some("constructor")), 60, 60) == Failure(UnsupportedResolution)
  {
    assert "constructor" in InheritedNames;
    assert "constructor" !in ResolutionKeys;
  }

  /** Finding: a duration that is not a number (`"abc"` converts to NaN)
      fails neither `< 1` nor `> max`, so the source accepts it; the
      corrected validation refuses it. The same holds for fps. */
  lemma NaNDurationAccepted()
    ensures CheckAsWritten(Minimal("<p></p>").(duration := Some(NaN)), 60, 60).None?
    ensures Validate(Minimal("<p></p>").(duration := Some(NaN)), 60, 60) == Failure(DurationOutOfRange(60))
    ensures CheckAsWritten(Minimal("<p></p>").(fps := Some(NaN)), 60, 60).None?
    ensures Validate(Minimal("<p></p>").(fps := Some(NaN)), 60, 60) == Failure(FpsOutOfRange(60))
  {
    assert "HD_Vertical" in ResolutionKeys;
  }

  /** Every field left out: accepted with 15 s, 30 fps, the vertical HD
      resolution and MP4. */
  lemma DefaultsAccepted(html: string)
    requires html != "" && Text.Utf16Length(html) <= MaxHtmlLength
    ensures Validate(Minimal(html), 60, 60)
         == Success(RenderJob(html, "", "", "HD_Vertical", Resolution(1080, 1920, "Reels/TikTok"), MP4, 15.0, 30.0))
  {
    assert "HD_Vertical" in ResolutionKeys;
  }
}
