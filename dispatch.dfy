/**
 * The broadcast policy: `Image.send_hook` and `Image.handle_image`
 * (app.py:92-105). Every entry of `RULES['deploys']` is sent one POST, in
 * list order. The outside world is a `Network` whose log records each POST.
 */
module Dispatch {
  import opened Wrappers
  import opened Types

  /** One entry of `deploys`; `token` is None when the key is absent or null. */
  datatype Hook = Hook(url: string, token: Option<string>)

  /** The part of the loaded rules the broadcast reads: the optional `deploys` list. */
  datatype Rules = Rules(deploys: Option<seq<Hook>>)

  /** One outbound POST: destination, extra headers and JSON body. */
  datatype Call = Call(url: string, headers: map<string, string>, body: map<string, string>)

  /** The result of a broadcast: the error that ended it, if any, and the POSTs made. */
  datatype Dispatched = Dispatched(error: Option<Error>, calls: seq<Call>)

  const NoDeployHook: Error := HttpError(500, "No deploy hook url.")

  /** `httpx.post`, seen from outside: a log of every request sent. */
  class Network {
    var sent: seq<Call>

    constructor ()
      ensures sent == []
    {
      sent := [];
    }

    method Post(url: string, headers: map<string, string>, body: map<string, string>)
      modifies this
      ensures sent == old(sent) + [Call(url, headers, body)]
    {
      sent := sent + [Call(url, headers, body)];
    }
  }

  /** The hook's token, with the empty string standing in for a missing one. */
  function TokenOf(h: Hook): string {
    if h.token.Some? then h.token.value else ""
  }

  /** The token is truthy, so `send_hook` binds `headers`. */
  predicate HasToken(h: Hook) {
    TokenOf(h) != ""
  }

  /** The entries of `deploys`; an absent key and an empty list are treated alike. */
  function HooksOf(rules: Rules): seq<Hook> {
    if rules.deploys.Some? then rules.deploys.value else []
  }

  /** Authorization only when there is a token to send. */
  function HeadersFor(token: string): (headers: map<string, string>)
    ensures "Authorization" in headers <==> token != ""
    ensures forall k :: k in headers ==> k == "Authorization" && headers[k] == token
  {
    if token != "" then map["Authorization" := token] else map[]
  }

  /** The POST made for hook `h`. */
  function CallFor(img: Image, h: Hook): Call {
    Call(h.url, HeadersFor(TokenOf(h)), AsDict(img))
  }

  /** The POSTs for `hooks`, one per hook, in list order. */
  function CallsFor(img: Image, hooks: seq<Hook>): (calls: seq<Call>)
    ensures |calls| == |hooks|
    ensures forall i :: 0 <= i < |hooks| ==> calls[i] == CallFor(img, hooks[i])
  {
    if hooks == [] then [] else [CallFor(img, hooks[0])] + CallsFor(img, hooks[1..])
  }

  /** Extending the hooks by one extends the calls by that hook's call. */
  lemma CallsForExtend(img: Image, hooks: seq<Hook>, i: nat)
    requires i < |hooks|
    ensures CallsFor(img, hooks[..i + 1]) == CallsFor(img, hooks[..i]) + [CallFor(img, hooks[i])]
  {
    var a, b := CallsFor(img, hooks[..i + 1]), CallsFor(img, hooks[..i]) + [CallFor(img, hooks[i])];
    assert |a| == |b|;
    forall j | 0 <= j < |a| ensures a[j] == b[j] {
      assert hooks[..i + 1][j] == hooks[j];
    }
  }

  /** The index of the first hook without a token, or |hooks| when every hook has one. */
  function FirstTokenless(hooks: seq<Hook>): (k: nat)
    ensures k <= |hooks|
    ensures forall i :: 0 <= i < k ==> HasToken(hooks[i])
    ensures k < |hooks| ==> !HasToken(hooks[k])
  {
    if hooks == [] || !HasToken(hooks[0]) then 0 else 1 + FirstTokenless(hooks[1..])
  }

  /** `handle_image` as written: 500 without hooks; otherwise one POST per hook until a tokenless hook raises. */
  function Broadcast(img: Image, rules: Rules): Dispatched {
    var hooks := HooksOf(rules);
    if hooks == [] then Dispatched(Some(NoDeployHook), [])
    else
      var k := FirstTokenless(hooks);
      Dispatched(if k < |hooks| then Some(UnboundHeaders) else None, CallsFor(img, hooks[..k]))
  }

  /** `handle_image` as evidently intended: a hook without a token is sent no Authorization header. */
  function IntendedBroadcast(img: Image, rules: Rules): Dispatched {
    var hooks := HooksOf(rules);
    if hooks == [] then Dispatched(Some(NoDeployHook), []) else Dispatched(None, CallsFor(img, hooks))
  }

  /** app.py:92-96: with a token, one POST carrying it; without one, `headers` is unbound and nothing is sent. */
  method SendHook(img: Image, hookUrl: string, token: string, net: Network) returns (error: Option<Error>)
    modifies net
    ensures token != "" ==>
      error == None && net.sent == old(net.sent) + [Call(hookUrl, map["Authorization" := token], AsDict(img))]
    ensures token == "" ==> error == Some(UnboundHeaders) && net.sent == old(net.sent)
  {
    if token == "" {
      return Some(UnboundHeaders);
    }
    var headers := map["Authorization" := token];
    net.Post(hookUrl, headers, AsDict(img));
    return None;
  }

  /** app.py:98-105. */
  method HandleImage(img: Image, rules: Rules, net: Network) returns (error: Option<Error>)
    modifies net
    ensures error == Broadcast(img, rules).error
    ensures net.sent == old(net.sent) + Broadcast(img, rules).calls
  {
    var hooks := HooksOf(rules);
    if hooks == [] {
      return Some(NoDeployHook);
    }
    var i := 0;
    while i < |hooks|
      invariant 0 <= i <= |hooks|
      invariant forall j :: 0 <= j < i ==> HasToken(hooks[j])
      invariant net.sent == old(net.sent) + CallsFor(img, hooks[..i])
    {
      var hook := hooks[i];
      error := SendHook(img, hook.url, TokenOf(hook), net);
      if error.Some? {
        assert FirstTokenless(hooks) == i;
        return;
      }
      CallsForExtend(img, hooks, i);
      i := i + 1;
    }
    assert FirstTokenless(hooks) == |hooks|;
    assert hooks[..i] == hooks;
    return None;
  }

  /** `send_hook` as evidently intended: the Authorization header only when a token is given. */
  method SendHookIntended(img: Image, hookUrl: string, token: string, net: Network)
    modifies net
    ensures net.sent == old(net.sent) + [Call(hookUrl, HeadersFor(token), AsDict(img))]
  {
    var headers: map<string, string> := map[];
    if token != "" {
      headers := map["Authorization" := token];
    }
    net.Post(hookUrl, headers, AsDict(img));
  }

  /** `handle_image` over SendHookIntended: every hook is sent its POST. */
  method HandleImageIntended(img: Image, rules: Rules, net: Network) returns (error: Option<Error>)
    modifies net
    ensures error == IntendedBroadcast(img, rules).error
    ensures net.sent == old(net.sent) + IntendedBroadcast(img, rules).calls
  {
    var hooks := HooksOf(rules);
    if hooks == [] {
      return Some(NoDeployHook);
    }
    var i := 0;
    while i < |hooks|
      invariant 0 <= i <= |hooks|
      invariant net.sent == old(net.sent) + CallsFor(img, hooks[..i])
    {
      SendHookIntended(img, hooks[i].url, TokenOf(hooks[i]), net);
      CallsForExtend(img, hooks, i);
      i := i + 1;
    }
    assert hooks[..i] == hooks;
    return None;
  }

  /** How a broadcast ends: 500 exactly when no hook is configured, UnboundHeaders exactly when some hook has no token, success otherwise. */
  lemma BroadcastOutcome(img: Image, rules: Rules)
    ensures Broadcast(img, rules).error == Some(NoDeployHook) <==> HooksOf(rules) == []
    ensures Broadcast(img, rules).error == Some(UnboundHeaders)
      <==> HooksOf(rules) != [] && exists i :: 0 <= i < |HooksOf(rules)| && !HasToken(HooksOf(rules)[i])
    ensures Broadcast(img, rules).error == None
      <==> HooksOf(rules) != [] && forall i :: 0 <= i < |HooksOf(rules)| ==> HasToken(HooksOf(rules)[i])
  {
    var hooks := HooksOf(rules);
    if hooks != [] {
      var k := FirstTokenless(hooks);
      if k < |hooks| {
        assert !HasToken(hooks[k]);
      }
    }
  }

  /** No hooks: 500 and nothing sent. */
  lemma NoHooksNoCalls(img: Image, rules: Rules)
    requires rules.deploys.None? || rules.deploys == Some([])
    ensures Broadcast(img, rules) == Dispatched(Some(HttpError(500, "No deploy hook url.")), [])
  {
  }

  /** Every hook has a token: one POST per hook, in list order, to its url, authorised by its token, carrying the image. */
  lemma BroadcastOnePerHook(img: Image, rules: Rules)
    requires HooksOf(rules) != []
    requires forall i :: 0 <= i < |HooksOf(rules)| ==> HasToken(HooksOf(rules)[i])
    ensures var d, hooks := Broadcast(img, rules), HooksOf(rules);
      d.error == None && |d.calls| == |hooks|
      && forall i :: 0 <= i < |hooks| ==>
           d.calls[i] == Call(hooks[i].url, map["Authorization" := TokenOf(hooks[i])], AsDict(img))
  {
    var hooks := HooksOf(rules);
    assert hooks[..FirstTokenless(hooks)] == hooks;
  }

  /** The first tokenless hook, at index k, ends the broadcast: only the k hooks before it were sent a POST. */
  lemma BroadcastStopsAtTokenless(img: Image, rules: Rules, k: nat)
    requires k < |HooksOf(rules)| && !HasToken(HooksOf(rules)[k])
    requires forall i :: 0 <= i < k ==> HasToken(HooksOf(rules)[i])
    ensures var d, hooks := Broadcast(img, rules), HooksOf(rules);
      d.error == Some(UnboundHeaders) && |d.calls| == k
      && forall i :: 0 <= i < k ==>
           d.calls[i] == Call(hooks[i].url, map["Authorization" := TokenOf(hooks[i])], AsDict(img))
  {
    assert FirstTokenless(HooksOf(rules)) == k;
  }

  /** The intended broadcast reaches every hook, whatever the tokens, with Authorization exactly when the hook has a token. */
  lemma IntendedReachesEveryHook(img: Image, rules: Rules)
    requires HooksOf(rules) != []
    ensures var d, hooks := IntendedBroadcast(img, rules), HooksOf(rules);
      d.error == None && |d.calls| == |hooks|
      && forall i :: 0 <= i < |hooks| ==>
           && d.calls[i].url == hooks[i].url
           && d.calls[i].body == AsDict(img)
           && ("Authorization" in d.calls[i].headers <==> HasToken(hooks[i]))
           && (HasToken(hooks[i]) ==> d.calls[i].headers == map["Authorization" := TokenOf(hooks[i])])
  {
  }

  /** The code as written behaves as intended exactly when no configured hook lacks a token. */
  lemma BroadcastAsIntendedIff(img: Image, rules: Rules)
    ensures Broadcast(img, rules) == IntendedBroadcast(img, rules)
      <==> forall i :: 0 <= i < |HooksOf(rules)| ==> HasToken(HooksOf(rules)[i])
  {
    var hooks := HooksOf(rules);
    if hooks != [] {
      var k := FirstTokenless(hooks);
      if k < |hooks| {
        assert !HasToken(hooks[k]);
      } else {
        assert hooks[..k] == hooks;
      }
    }
  }

  /** A configuration whose first hook has no token: the code sends nothing at all, the intended code sends both POSTs. */
  lemma TokenlessHookAbortsBroadcast(img: Image)
    ensures var rules := Rules(Some([Hook("http://a", None), Hook("http://b", Some("t"))]));
      && Broadcast(img, rules) == Dispatched(Some(UnboundHeaders), [])
      && IntendedBroadcast(img, rules).error == None
      && |IntendedBroadcast(img, rules).calls| == 2
  {
    var rules := Rules(Some([Hook("http://a", None), Hook("http://b", Some("t"))]));
    assert FirstTokenless(HooksOf(rules)) == 0;
  }
}
