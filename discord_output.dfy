/** The checks and payload of outputs/discord.py, up to the point where the
    webhook would be called: `_clip`, and the validation and payload
    construction at the start of `send`. */
module DiscordOutput {
  import opened Wrappers
  import opened PyValues

  /** `DISCORD_CONTENT_LIMIT` */
  const ContentLimit: int := 2000
  /** `SAFE_TITLE_LIMIT` */
  const SafeTitleLimit: int := 96

  const Ellipsis: char := '…'

  function Max(a: int, b: int): int { if a < b then b else a }
  function Min(a: int, b: int): int { if a < b then a else b }

  /** `_clip(s, n)`: `None` gives `""`; a text of at most `n` characters is
      kept; a longer one is cut to `max(0, n - 1)` characters followed by
      an ellipsis. */
  function Clip(s: Option<string>, n: int): string {
    if s.None? then ""
    else if |s.value| <= n then s.value
    else s.value[..Max(0, n - 1)] + [Ellipsis]
  }

  /** What a clip gives: the text itself when it fits, otherwise a prefix
      of it and an ellipsis, `max(0, n - 1) + 1` characters in all, which
      is at most `n` for `n >= 1` and one character otherwise. */
  lemma ClipShape(s: string, n: int)
    ensures |s| <= n ==> Clip(Some(s), n) == s
    ensures |s| > n ==> |Clip(Some(s), n)| == Max(0, n - 1) + 1
    ensures |s| > n ==> Clip(Some(s), n)[..|Clip(Some(s), n)| - 1] == s[..Max(0, n - 1)]
    ensures |s| > n ==> Clip(Some(s), n)[|Clip(Some(s), n)| - 1] == Ellipsis
    ensures |Clip(Some(s), n)| <= Max(n, 1)
    ensures Clip(None, n) == ""
  {
    if |s| > n {
      var r := Clip(Some(s), n);
      assert r == s[..Max(0, n - 1)] + [Ellipsis];
      assert r[..|r| - 1] == s[..Max(0, n - 1)];
    }
  }

  /** Clipping twice to the same limit clips once, whatever the limit;
      the one exception is `None` under a negative limit, where the first
      clip gives `""` and the second an ellipsis. */
  lemma ClipIdempotent(s: Option<string>, n: int)
    ensures s.None? && n < 0 ==> Clip(Some(Clip(s, n)), n) == [Ellipsis]
    ensures s.Some? || n >= 0 ==> Clip(Some(Clip(s, n)), n) == Clip(s, n)
  {
    if s.Some? && |s.value| > n {
      var r := Clip(s, n);
      ClipShape(s.value, n);
      if n < 1 {
        assert Max(0, n - 1) == 0 && s.value[..0] == [];
        assert r == [Ellipsis];
        assert Clip(Some(r), n) == r[..0] + [Ellipsis];
        assert r[..0] + [Ellipsis] == r;
      } else {
        assert |r| == n;
      }
    }
  }

  /** Why `send` stops before posting: a channel kind other than
      `"forum"` (`ValueError`), a `webhook_env` that is not a str
      (`TypeError` from the environment lookup), no webhook URL in the
      environment (`RuntimeError`), or a `max_chars` that `int` refuses. */
  datatype SendError = NotForum | BadWebhookEnv | MissingWebhook(envName: string) | BadMaxChars

  /** The post `send` would make: the webhook URL and the JSON payload. */
  datatype Request = Request(webhook: string, payload: map<string, Value>)

  /** `x or ""` on an optional str. */
  function OrEmpty(x: Option<string>): string {
    if x.None? then "" else x.value
  }

  /** The start of `send(title, body, settings)`: the checks in their order,
      then the payload, built as a dict with `applied_tags` inserted only
      when the settings have it. `env` stands for the process
      environment. */
  method Send(title: Option<string>, body: Option<string>, settings: map<string, Value>, env: map<string, string>)
    returns (res: Result<Request, SendError>)
    ensures Get(settings, "channel_kind", VNone) != VStr("forum") ==> res == Failure(NotForum)
    ensures var urlEnv := Get(settings, "webhook_env", VStr(""));
      Get(settings, "channel_kind", VNone) == VStr("forum") && !urlEnv.VStr? ==> res == Failure(BadWebhookEnv)
    ensures var urlEnv := Get(settings, "webhook_env", VStr(""));
      && Get(settings, "channel_kind", VNone) == VStr("forum") && urlEnv.VStr?
      && (urlEnv.s !in env || env[urlEnv.s] == "")
      ==> res == Failure(MissingWebhook(urlEnv.s))
    ensures var urlEnv := Get(settings, "webhook_env", VStr(""));
      && Get(settings, "channel_kind", VNone) == VStr("forum") && urlEnv.VStr?
      && urlEnv.s in env && env[urlEnv.s] != ""
      && IntOf(Get(settings, "max_chars", VInt(ContentLimit))).None?
      ==> res == Failure(BadMaxChars)
    ensures var urlEnv := Get(settings, "webhook_env", VStr(""));
      res.Success? <==>
        && Get(settings, "channel_kind", VNone) == VStr("forum") && urlEnv.VStr?
        && urlEnv.s in env && env[urlEnv.s] != ""
        && IntOf(Get(settings, "max_chars", VInt(ContentLimit))).Some?
    ensures res.Failure? && res.error.MissingWebhook? ==>
      Get(settings, "webhook_env", VStr("")) == VStr(res.error.envName)
      && (res.error.envName !in env || env[res.error.envName] == "")
    ensures res.Success? ==>
      && Get(settings, "channel_kind", VNone) == VStr("forum")
      && Get(settings, "webhook_env", VStr("")).VStr?
      && var name := Get(settings, "webhook_env", VStr("")).s;
      && name in env && res.value.webhook == env[name] && res.value.webhook != ""
    ensures res.Success? ==>
      && IntOf(Get(settings, "max_chars", VInt(ContentLimit))).Some?
      && var maxChars := IntOf(Get(settings, "max_chars", VInt(ContentLimit))).value;
      && var p := res.value.payload;
      && "thread_name" in p && p["thread_name"] == VStr(Clip(Some(OrEmpty(title)), SafeTitleLimit))
      && "content" in p && p["content"] == VStr(Clip(Some(OrEmpty(body)), Min(maxChars, ContentLimit)))
      && |p["thread_name"].s| <= SafeTitleLimit
      && |p["content"].s| <= ContentLimit
      && ("applied_tags" in p <==> "applied_tags" in settings)
      && ("applied_tags" in p ==> p["applied_tags"] == settings["applied_tags"])
      && p.Keys <= {"thread_name", "content", "applied_tags"}
  {
    if Get(settings, "channel_kind", VNone) != VStr("forum") {
      return Failure(NotForum);
    }
    var urlEnv := Get(settings, "webhook_env", VStr(""));
    if !urlEnv.VStr? {
      return Failure(BadWebhookEnv);
    }
    var webhookUrl := if urlEnv.s in env then env[urlEnv.s] else "";
    if webhookUrl == "" {
      return Failure(MissingWebhook(urlEnv.s));
    }
    var maxChars := IntOf(Get(settings, "max_chars", VInt(ContentLimit)));
    if maxChars.None? {
      return Failure(BadMaxChars);
    }
    var threadName := Clip(Some(OrEmpty(title)), SafeTitleLimit);
    var content := Clip(Some(OrEmpty(body)), Min(maxChars.value, ContentLimit));
    ClipShape(OrEmpty(title), SafeTitleLimit);
    ClipShape(OrEmpty(body), Min(maxChars.value, ContentLimit));
    var payload := map["thread_name" := VStr(threadName), "content" := VStr(content)];
    if "applied_tags" in settings {
      payload := payload["applied_tags" := settings["applied_tags"]];
    }
    return Success(Request(webhookUrl, payload));
  }
}
