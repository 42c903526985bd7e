/**
 * The injection middleware: a development gate over the environment, a Content-Type check,
 * and the splice of the toolbar markup in front of every `</body>` of an HTML body, written
 * back over the response's body stream. The toolbar engine is an append-only event log; its
 * renderer's output is an opaque string, or `None` when rendering throws an `Exception`.
 */
module Middleware {
  import opened Wrappers
  import opened Strings
  import opened Http

  const CloseBody := "</body>"
  const StyleOpen := "<style type=\"text/css\">"
  const StyleClose := "</style>"
  const DefaultAssetPath := "/debugbar"
  const DefaultLevel := "info"

  // ---- development gate ----

  /** What `getenv` and `php_sapi_name` report; `None` is `getenv` returning `false`. */
  datatype Env = Env(appEnv: Option<string>, debug: Option<string>, sapi: string)

  /** PHP truthiness of a `getenv` result: `false`, `""` and `"0"` are falsy. */
  predicate Falsy(v: Option<string>)
  {
    v.None? || v.value == "" || v.value == "0"
  }

  /** `getenv('APP_ENV') ?: 'development'`. */
  function AppEnv(env: Env): string
  {
    if Falsy(env.appEnv) then "development" else env.appEnv.value
  }

  /** `isDevelopmentMode()`. */
  predicate IsDevelopmentMode(env: Env)
  {
    if AppEnv(env) == "production" then false
    else if env.debug == Some("false") || env.debug == Some("0") then false
    else if env.sapi == "cli" then false
    else true
  }

  /** The gate is closed exactly by a production APP_ENV, a DEBUG of "false" or "0", or the CLI. */
  lemma DevelopmentModeIff(env: Env)
    ensures !IsDevelopmentMode(env) <==>
      env.appEnv == Some("production") || env.debug == Some("false") || env.debug == Some("0") || env.sapi == "cli"
  {
  }

  /** An unset, empty or "0" APP_ENV behaves exactly like APP_ENV=development. */
  lemma FalsyAppEnvIsDevelopment(env: Env)
    requires Falsy(env.appEnv)
    ensures IsDevelopmentMode(env) == IsDevelopmentMode(env.(appEnv := Some("development")))
    ensures AppEnv(env) == "development"
  {
  }

  /**
   * PHPUnit runs under the `cli` SAPI, where the gate is closed whatever APP_ENV and DEBUG
   * say; the environment of the injection test leaves the middleware switched off.
   */
  lemma CliClosesGate(appEnv: Option<string>, debug: Option<string>)
    ensures !IsDevelopmentMode(Env(appEnv, debug, "cli"))
    ensures !IsDevelopmentMode(Env(Some("development"), Some("true"), "cli"))
  {
  }

  // ---- HTML check ----

  /** PHP `empty()` on a string. */
  predicate PhpEmpty(s: string)
  {
    s == "" || s == "0"
  }

  /** `isHtmlResponse()`, on the Content-Type header line. */
  predicate IsHtml(contentType: string)
  {
    Contains(contentType, "text/html") || PhpEmpty(contentType)
  }

  /** HTML exactly when "text/html" occurs at some offset, or the header is "" or "0". */
  lemma IsHtmlIff(contentType: string)
    ensures IsHtml(contentType) <==>
      (exists i :: 0 <= i <= |contentType| && StartsWith(contentType[i..], "text/html"))
      || contentType == "" || contentType == "0"
  {
    ContainsIffOccursAt(contentType, "text/html");
  }

  lemma JsonParts(contentType: string)
    requires contentType == "application/json"
    ensures contentType[..7] == "applica" && contentType[8..] == "ion/json"
    ensures contentType[..7] + (['t'] + contentType[8..] + "") == contentType
  {
  }

  /** "applica", then a `t` not followed by `e`, then no `t` at all: no "text/html" anywhere. */
  lemma JsonHasNoHtml(head: string, rest: string)
    requires head == "applica" && rest == "ion/json"
    ensures !Contains(head + (['t'] + rest + ""), "text/html")
  {
    ContainsSkipRun(head, ['t'] + rest + "", "text/html");
    ContainsSkipFalseStart('t', rest, "", 1, "text/html");
    ShortNotContains("", "text/html");
  }

  /** The test's JSON response is not HTML. */
  lemma JsonIsNotHtml(contentType: string)
    requires contentType == "application/json"
    ensures !IsHtml(contentType)
  {
    JsonParts(contentType);
    JsonHasNoHtml(contentType[..7], contentType[8..]);
  }

  /** A media type with parameters is still HTML, and so are the PHP-empty header lines. */
  lemma HtmlExamples()
    ensures IsHtml("text/html; charset=UTF-8")
    ensures IsHtml("") && IsHtml("0")
  {
    assert StartsWith("text/html; charset=UTF-8", "text/html");
  }

  // ---- splice ----

  /** The injected markup: the branding style block, then the renderer's head and body markup. */
  function Markup(brandingCss: string, rendered: string): (m: string)
    ensures StartsWith(m, StyleOpen)
    ensures |m| >= |rendered| && m[|m| - |rendered|..] == rendered
  {
    StyleOpen + brandingCss + StyleClose + rendered
  }

  /** `str_replace('</body>', markup . '</body>', body)`. */
  function Splice(body: string, markup: string): string
  {
    ReplaceAll(body, CloseBody, markup + CloseBody)
  }

  /** The body text `injectDebugBar` leaves in the stream. */
  function InjectedBody(body: string, brandingCss: string, rendered: Option<string>): string
  {
    if !Contains(body, CloseBody) then body
    else match rendered
      case None => body
      case Some(html) => Splice(body, Markup(brandingCss, html))
  }

  /**
   * The injected body is the original one cut at every `</body>`, with the markup glued in
   * front of each tag; the pieces between the tags are the original text, unchanged.
   */
  lemma InjectionKeepsText(body: string, brandingCss: string, html: string)
    ensures var pieces := Split(body, CloseBody);
      && Join(pieces, CloseBody) == body
      && (forall k :: 0 <= k < |pieces| ==> !Contains(pieces[k], CloseBody))
      && InjectedBody(body, brandingCss, Some(html))
         == Join(pieces, if Contains(body, CloseBody) then Markup(brandingCss, html) + CloseBody else CloseBody)
  {
    JoinOfSplit(body, CloseBody);
    SplitPiecesAreFree(body, CloseBody);
    ReplaceAllIsJoinOfSplit(body, CloseBody, Markup(brandingCss, html) + CloseBody);
  }

  /** A body without `</body>`, or a renderer that throws an `Exception`, leaves the body unchanged. */
  lemma InjectionNeedsTagAndRender(body: string, brandingCss: string, rendered: Option<string>)
    requires !Contains(body, CloseBody) || rendered.None?
    ensures InjectedBody(body, brandingCss, rendered) == body
  {
  }

  /** When it happens, the markup stands right in front of a `</body>`. */
  lemma InjectionPlacesMarkup(body: string, brandingCss: string, html: string)
    requires Contains(body, CloseBody)
    ensures Contains(InjectedBody(body, brandingCss, Some(html)), Markup(brandingCss, html) + CloseBody)
  {
    ReplaceAllContainsReplacement(body, CloseBody, Markup(brandingCss, html) + CloseBody);
  }

  /** Injection never shortens the body, so writing it from offset 0 replaces the old text entirely. */
  lemma InjectionNotShorter(body: string, brandingCss: string, rendered: Option<string>)
    ensures |InjectedBody(body, brandingCss, rendered)| >= |body|
  {
    if rendered.Some? {
      ReplaceAllNotShorter(body, CloseBody, Markup(brandingCss, rendered.value) + CloseBody);
    }
  }

  /** The test page up to its `</body>` holds no `</body>`, not even one cut short by the tag. */
  lemma TestPageBeforeTag(before: string)
    requires before == "<html><body><h1>Test</h1>"
    ensures !Contains(before + CloseBody[..|CloseBody| - 1], CloseBody)
  {
    SpelledHead('<', before);
    var lt := '<';
    var r5 := [lt] + "/body";
    var r4 := [lt] + "/h1>" + r5;
    var r3 := [lt] + "h1>Test" + r4;
    var r2 := [lt] + "body>" + r3;
    ShortNotContains(r5, CloseBody);
    ContainsSkipFalseStart(lt, "/h1>", r5, 2, CloseBody);
    ContainsSkipFalseStart(lt, "h1>Test", r4, 1, CloseBody);
    ContainsSkipFalseStart(lt, "body>", r3, 1, CloseBody);
    ContainsSkipFalseStart(lt, "html>", r2, 1, CloseBody);
  }

  lemma SpelledHead(lt: char, before: string)
    requires lt == '<' && before == "<html><body><h1>Test</h1>"
    ensures before + CloseBody[..|CloseBody| - 1]
         == [lt] + "html>" + ([lt] + "body>" + ([lt] + "h1>Test" + ([lt] + "/h1>" + ([lt] + "/body"))))
  {
  }

  /** The test page after its `</body>` holds no `</body>`. */
  lemma TestPageAfterTag(after: string)
    requires after == "</html>"
    ensures !Contains(after, CloseBody)
  {
    var lt := '<';
    assert after == [lt] + "/html>" + "";
    ContainsSkipFalseStart(lt, "/html>", "", 2, CloseBody);
    ShortNotContains("", CloseBody);
  }

  /**
   * A body with a single `</body>` (and no earlier partial overlap with it) gets the markup
   * exactly once, right in front of that tag, and keeps everything around it.
   */
  lemma InjectionAtSingleTag(before: string, after: string, brandingCss: string, html: string)
    requires !Contains(before + CloseBody[..|CloseBody| - 1], CloseBody) && !Contains(after, CloseBody)
    ensures InjectedBody(before + CloseBody + after, brandingCss, Some(html))
         == before + Markup(brandingCss, html) + CloseBody + after
  {
    ReplaceAllSingleOccurrence(before, CloseBody, after, Markup(brandingCss, html) + CloseBody);
    ContainsInfix(before, CloseBody, after);
  }

  /**
   * The page of the middleware's own test, `<html><body><h1>Test</h1>` + `</body>` + `</html>`:
   * the heading survives and the markup lands right before the tag.
   */
  lemma TestPageInjection(before: string, after: string, brandingCss: string, html: string)
    requires before == "<html><body><h1>Test</h1>" && after == "</html>"
    ensures InjectedBody(before + CloseBody + after, brandingCss, Some(html))
         == before + Markup(brandingCss, html) + CloseBody + after
  {
    TestPageBeforeTag(before);
    TestPageAfterTag(after);
    InjectionAtSingleTag(before, after, brandingCss, html);
  }

  // ---- the toolbar engine and the inner handler ----

  datatype Request = Request(verb: string, uri: string)

  datatype Event =
    | Message(text: string, level: string)
    | MeasureStarted(name: string, caption: Option<string>)
    | MeasureStopped(name: string)

  /** The toolbar engine, reduced to the log of what its collectors were told. */
  class Engine {
    var log: seq<Event>
    const hasTimeCollector: bool

    constructor (hasTimeCollector: bool)
      ensures log == [] && this.hasTimeCollector == hasTimeCollector
    {
      log := [];
      this.hasTimeCollector := hasTimeCollector;
    }

    method AddMessage(text: string, level: string)
      modifies this
      ensures log == old(log) + [Message(text, level)]
    {
      log := log + [Message(text, level)];
    }

    method StartMeasure(name: string, caption: Option<string>)
      modifies this
      ensures log == old(log) + [MeasureStarted(name, caption)]
    {
      log := log + [MeasureStarted(name, caption)];
    }

    method StopMeasure(name: string)
      modifies this
      ensures log == old(log) + [MeasureStopped(name)]
    {
      log := log + [MeasureStopped(name)];
    }
  }

  /**
   * The next handler of the pipeline. It answers with a fixed response. The host code it runs
   * may itself report to the toolbar (through the public `addMessage`/`startMeasure`/
   * `stopMeasure`, or the engine directly): those reports are `hostEvents`, appended to the
   * log during the call. For observation it counts its calls and notes the log as it stood
   * when it was called.
   */
  class Handler {
    const response: Response
    const hostEvents: seq<Event>
    ghost var calls: nat
    ghost var logAtCall: seq<Event>

    constructor (response: Response, hostEvents: seq<Event>)
      ensures this.response == response && this.hostEvents == hostEvents
      ensures calls == 0 && logAtCall == []
    {
      this.response := response;
      this.hostEvents := hostEvents;
      calls, logAtCall := 0, [];
    }

    method Handle(request: Request, engine: Engine) returns (r: Response)
      modifies this, engine
      ensures r == response && calls == old(calls) + 1 && logAtCall == old(engine.log)
      ensures engine.log == old(engine.log) + hostEvents
    {
      r := response;
      calls := calls + 1;
      logAtCall := engine.log;
      engine.log := engine.log + hostEvents;
    }
  }

  function RequestMessage(request: Request): string
  {
    "Request: " + request.verb + " " + request.uri
  }

  /** What `process` tells the engine before calling the handler. */
  function EventsBefore(request: Request, hasTimeCollector: bool): seq<Event>
  {
    (if hasTimeCollector then [MeasureStarted("request", Some("Request Processing"))] else [])
    + [Message(RequestMessage(request), DefaultLevel)]
  }

  /** What `process` tells the engine after the handler returns. */
  function EventsAfter(hasTimeCollector: bool): seq<Event>
  {
    if hasTimeCollector then [MeasureStopped("request")] else []
  }

  function Messages(events: seq<Event>): seq<string>
    decreases |events|
  {
    if |events| == 0 then []
    else (if events[0].Message? then [events[0].text] else []) + Messages(events[1..])
  }

  lemma {:induction false} MessagesOfConcat(a: seq<Event>, b: seq<Event>)
    ensures Messages(a + b) == Messages(a) + Messages(b)
    decreases |a|
  {
    if |a| == 0 {
      assert a + b == b;
    } else {
      MessagesOfConcat(a[1..], b);
      assert (a + b)[1..] == a[1..] + b;
    }
  }

  /** A request processed in development mode logs exactly one message, the request line. */
  lemma OneMessagePerRequest(request: Request, hasTimeCollector: bool)
    ensures Messages(EventsBefore(request, hasTimeCollector) + EventsAfter(hasTimeCollector))
         == [RequestMessage(request)]
  {
    var start: seq<Event> := if hasTimeCollector then [MeasureStarted("request", Some("Request Processing"))] else [];
    MessagesOfConcat(EventsBefore(request, hasTimeCollector), EventsAfter(hasTimeCollector));
    MessagesOfConcat(start, [Message(RequestMessage(request), DefaultLevel)]);
  }

  // ---- the middleware ----

  class DebugBarMiddleware {
    const engine: Engine
    const baseUrl: string
    const brandingCss: string

    /** `$debugBar ?? new StandardDebugBar()`, `$assetPath ?? '/debugbar'`. */
    constructor (debugBar: Engine?, assetPath: Option<string>, brandingCss: string)
      ensures debugBar != null ==> engine == debugBar
      ensures debugBar == null ==> fresh(engine) && engine.log == [] && engine.hasTimeCollector
      ensures baseUrl == if assetPath.Some? then assetPath.value else DefaultAssetPath
      ensures this.brandingCss == brandingCss
    {
      if debugBar != null {
        engine := debugBar;
      } else {
        engine := new Engine(true);
      }
      baseUrl := if assetPath.Some? then assetPath.value else DefaultAssetPath;
      this.brandingCss := brandingCss;
    }

    /** `process($request, $handler)`. */
    method Process(env: Env, request: Request, handler: Handler, rendered: Option<string>) returns (r: Response)
      requires handler.response.body.Valid()
      modifies engine, handler, handler.response.body
      ensures r == handler.response && handler.calls == old(handler.calls) + 1
      ensures !IsDevelopmentMode(env) ==>
        && handler.logAtCall == old(engine.log)
        && engine.log == old(engine.log) + handler.hostEvents
        && unchanged(r.body)
      ensures IsDevelopmentMode(env) ==>
        && handler.logAtCall == old(engine.log) + EventsBefore(request, engine.hasTimeCollector)
        && engine.log == handler.logAtCall + handler.hostEvents + EventsAfter(engine.hasTimeCollector)
        && r.body.Valid()
        && r.body.content ==
             if IsHtml(HeaderLine(r.headers, "Content-Type"))
             then InjectedBody(old(r.body.content), brandingCss, rendered)
             else old(r.body.content)
    {
      if !IsDevelopmentMode(env) {
        r := handler.Handle(request, engine);
        return;
      }
      if engine.hasTimeCollector {
        engine.StartMeasure("request", Some("Request Processing"));
      }
      engine.AddMessage(RequestMessage(request), DefaultLevel);
      r := handler.Handle(request, engine);
      if engine.hasTimeCollector {
        engine.StopMeasure("request");
      }
      if IsHtml(HeaderLine(r.headers, "Content-Type")) {
        r := InjectDebugBar(r, rendered);
      }
    }

    /** `injectDebugBar($response)`: splice, rewind, write; a rendering failure leaves the body. */
    method InjectDebugBar(response: Response, rendered: Option<string>) returns (r: Response)
      requires response.body.Valid()
      modifies response.body
      ensures r == response && r.body.Valid()
      ensures r.body.content == InjectedBody(old(response.body.content), brandingCss, rendered)
    {
      r := response;
      var body := response.body.ReadAll();
      if !Contains(body, CloseBody) {
        return;
      }
      match rendered
      case None =>
        return;
      case Some(html) =>
        var spliced := Splice(body, Markup(brandingCss, html));
        InjectionNotShorter(body, brandingCss, rendered);
        response.body.Rewind();
        response.body.Write(spliced);
        OverwriteFromStart(body, spliced);
    }

    /** `addMessage($message, $label)`: a no-op outside development mode. */
    method AddMessage(env: Env, message: string, level: string := DefaultLevel)
      modifies engine
      ensures engine.log == if IsDevelopmentMode(env) then old(engine.log) + [Message(message, level)] else old(engine.log)
    {
      if IsDevelopmentMode(env) {
        engine.AddMessage(message, level);
      }
    }

    /** `startMeasure($name, $label)`: a no-op outside development mode or without a time collector. */
    method StartMeasure(env: Env, name: string, caption: Option<string> := None)
      modifies engine
      ensures engine.log ==
        if IsDevelopmentMode(env) && engine.hasTimeCollector
        then old(engine.log) + [MeasureStarted(name, caption)] else old(engine.log)
    {
      if IsDevelopmentMode(env) && engine.hasTimeCollector {
        engine.StartMeasure(name, caption);
      }
    }

    /** `stopMeasure($name)`: a no-op outside development mode or without a time collector. */
    method StopMeasure(env: Env, name: string)
      modifies engine
      ensures engine.log ==
        if IsDevelopmentMode(env) && engine.hasTimeCollector
        then old(engine.log) + [MeasureStopped(name)] else old(engine.log)
    {
      if IsDevelopmentMode(env) && engine.hasTimeCollector {
        engine.StopMeasure(name);
      }
    }
  }
}
