/** discord_webhook.py: posts a release announcement to a Discord webhook.
    The script reads four environment variables, renders one message,
    POSTs it as JSON and fails when the answer is an HTTP error. The HTTP
    client is a function from the request to the response it gets. */
module DiscordWebhook {
  import opened Wrappers

  /** The process environment. */
  type Environment = map<string, string>

  /** `os.getenv(name)`. */
  function GetEnv(env: Environment, name: string): Option<string> {
    if name in env then Some(env[name]) else None
  }

  /** What an f-string makes of a value from `os.getenv`: the string itself,
      and "None" for a missing variable. */
  function PyStr(v: Option<string>): string {
    match v
    case Some(s) => s
    case None => "None"
  }

  const GREETING: string := "Hello @everyone, new release **"
  const AFTER_TAG: string := "** is out \U{1F680} \n"
  const AFTER_BODY: string := " \n[View Release]("
  const CLOSING: string := ")"

  /** The f-string on line 14, with the values already turned into text. */
  function RenderContent(tag: string, body: string, url: string): (content: string)
    ensures |content| == |GREETING| + |tag| + |AFTER_TAG| + |body| + |AFTER_BODY| + |url| + |CLOSING|
    ensures content[..|GREETING|] == GREETING
    ensures content[|GREETING|..|GREETING| + |tag|] == tag
    ensures var b := |GREETING| + |tag| + |AFTER_TAG|;
            content[b - |AFTER_TAG|..b] == AFTER_TAG && content[b..b + |body|] == body
    ensures var u := |content| - |CLOSING| - |url|;
            content[u - |AFTER_BODY|..u] == AFTER_BODY && content[u..u + |url|] == url
    ensures content[|content| - |CLOSING|..] == CLOSING
  {
    var head := GREETING + tag + AFTER_TAG;
    var middle := head + body + AFTER_BODY;
    assert head[..|GREETING|] == GREETING && head[|GREETING|..|GREETING| + |tag|] == tag;
    assert middle[..|head|] == head && middle[|head|..|head| + |body|] == body;
    middle + url + CLOSING
  }

  /** Reading a message back: given the lengths of the tag and the body, the
      three values, when the fixed parts of the template are in place. */
  function ParseContent(content: string, tagLength: nat, bodyLength: nat): Option<(string, string, string)> {
    var t := |GREETING|;
    var b := t + tagLength + |AFTER_TAG|;
    var u := b + bodyLength + |AFTER_BODY|;
    if u + |CLOSING| <= |content|
       && content[..t] == GREETING
       && content[t + tagLength..b] == AFTER_TAG
       && content[b + bodyLength..u] == AFTER_BODY
       && content[|content| - |CLOSING|..] == CLOSING
    then Some((content[t..t + tagLength], content[b..b + bodyLength], content[u..|content| - |CLOSING|]))
    else None
  }

  /** The values are inserted verbatim: they can be read back from the message. */
  lemma RenderThenParse(tag: string, body: string, url: string)
    ensures ParseContent(RenderContent(tag, body, url), |tag|, |body|) == Some((tag, body, url))
  {
    var c := RenderContent(tag, body, url);
    var u := |GREETING| + |tag| + |AFTER_TAG| + |body| + |AFTER_BODY|;
    assert c[u..|c| - |CLOSING|] == url;
  }

  /** Messages with tags and bodies of the same lengths are equal only when
      all three values are. */
  lemma RenderInjective(t1: string, b1: string, u1: string, t2: string, b2: string, u2: string)
    requires |t1| == |t2| && |b1| == |b2|
    ensures RenderContent(t1, b1, u1) == RenderContent(t2, b2, u2) <==> t1 == t2 && b1 == b2 && u1 == u2
  {
    if RenderContent(t1, b1, u1) == RenderContent(t2, b2, u2) {
      RenderThenParse(t1, b1, u1);
      RenderThenParse(t2, b2, u2);
    }
  }

  /** The message built from the environment. */
  function Content(env: Environment): string {
    RenderContent(PyStr(GetEnv(env, "RELEASE_TAG")), PyStr(GetEnv(env, "RELEASE_BODY")),
                  PyStr(GetEnv(env, "RELEASE_URL")))
  }

  /** The dict `{"content": content}` sent as the JSON body. */
  function Payload(content: string): (payload: map<string, string>)
    ensures payload.Keys == {"content"}
    ensures payload["content"] == content
  {
    map["content" := content]
  }

  /** `requests.post(url, json=payload)`. */
  datatype Request = Post(url: string, json: map<string, string>)

  /** What the POST gets: an exception from the transport (DNS, refused
      connection, timeout, invalid URL) or an HTTP status code. */
  datatype Response = TransportError | Answered(status: int)

  /** How `main()` ends. */
  datatype Exit = ReturnedNormally | Raised

  /** `response.raise_for_status()` raises for client (4xx) and server (5xx) errors. */
  predicate IsHttpError(status: int) {
    400 <= status < 600
  }

  /** `main()`: the request it sends, if any, and how it ends. Without
      DISCORD_WEBHOOK_URL, `requests.post(None, ...)` turns the URL into the
      text "None", which has no scheme, and raises MissingSchema before
      anything is sent. */
  function Main(env: Environment, send: Request -> Response): (r: (Option<Request>, Exit))
    ensures r.0.None? <==> "DISCORD_WEBHOOK_URL" !in env
    ensures r.0.None? ==> r.1 == Raised
    ensures r.0.Some? ==> && r.0.value.url == env["DISCORD_WEBHOOK_URL"]
                          && r.0.value.json.Keys == {"content"} && r.0.value.json["content"] == Content(env)
    ensures r.0.Some? ==>
              (r.1 == Raised <==> send(r.0.value).TransportError? || IsHttpError(send(r.0.value).status))
  {
    match GetEnv(env, "DISCORD_WEBHOOK_URL")
    case None => (None, Raised)
    case Some(webhookUrl) =>
      var request := Post(webhookUrl, Payload(Content(env)));
      var exit := match send(request)
        case TransportError => Raised
        case Answered(status) => if IsHttpError(status) then Raised else ReturnedNormally;
      (Some(request), exit)
  }

  /** Missing release variables are not checked: each shows up in the
      message as the text "None". */
  lemma MissingVariablesRenderNone(env: Environment)
    ensures "RELEASE_TAG" !in env ==> Content(env)[|GREETING|..|GREETING| + 4] == "None"
    ensures var b := |GREETING| + |PyStr(GetEnv(env, "RELEASE_TAG"))| + |AFTER_TAG|;
            "RELEASE_BODY" !in env ==> Content(env)[b..b + 4] == "None"
    ensures var c := Content(env);
            "RELEASE_URL" !in env ==> c[|c| - |CLOSING| - 4..|c| - |CLOSING|] == "None"
  {
  }

  /** A missing webhook URL raises; otherwise 204 ends normally, while 404,
      500 and a transport failure raise. */
  lemma ExampleOutcomes(env: Environment, send: Request -> Response)
    ensures var (request, exit) := Main(env, send);
            && ("DISCORD_WEBHOOK_URL" !in env ==> exit == Raised)
            && (request.Some? ==>
                  && (send(request.value) == Answered(204) ==> exit == ReturnedNormally)
                  && (send(request.value) == Answered(404) ==> exit == Raised)
                  && (send(request.value) == Answered(500) ==> exit == Raised)
                  && (send(request.value) == TransportError ==> exit == Raised))
  {
  }
}
