/**
 * The client's own decision-making: how a (code, message) pair becomes an error, which
 * failure of a round trip wins, how a validation error map is flattened into one message,
 * and how the access token is fetched once, while none is held, and attached to requests.
 */
module Client {
  import opened Wrappers
  import opened GoStrings
  import opened Validation

  // ---------------------------------------------------------------------------------------
  // Codes and texts
  // ---------------------------------------------------------------------------------------

  const OK := 200
  const BadRequestError := 400
  const InternalError := 500
  /** `http.StatusRequestTimeout`. */
  const StatusRequestTimeout := 408

  const InternalErrorText := "内部错误，请联系美正客服"
  const UnknownErrorText := "Unknown error"

  // ---------------------------------------------------------------------------------------
  // errorWrap
  // ---------------------------------------------------------------------------------------

  /** `errorWrap`: no error for 200 and 0; otherwise the error `"<code>: <message>"`. */
  function ErrorWrap(code: int, message: string): (r: Option<Error>)
    ensures r.None? <==> code == OK || code == 0
    ensures r.Some? ==> r.value.Plain?
  {
    if code == OK || code == 0 then None
    else
      var detail :=
        if code == InternalError then (if message == "" then InternalErrorText else message)
        else (var t := TrimSpace(message); if t == "" then UnknownErrorText else t);
      Some(Plain(Decimal(code) + ": " + detail))
  }

  /** Reads an error text of the form `"<code>: <detail>"` back into its code and its detail. */
  function ReadWrapped(text: string): Option<(int, string)>
  {
    match IndexOf(text, ':')
    case None => None
    case Some(i) =>
      if i + 1 < |text| && text[i + 1] == ' ' then
        match ParseDecimal(text[..i])
        case None => None
        case Some(code) => Some((code, text[i + 2..]))
      else None
  }

  /** `"<code>: <detail>"` reads back as the code and the detail. */
  lemma ReadWrappedInverts(code: int, detail: string)
    ensures ReadWrapped(Decimal(code) + ": " + detail) == Some((code, detail))
  {
    var digits := Decimal(code);
    var text := digits + ": " + detail;
    assert text == digits + [':'] + ([' '] + detail);
    assert ':' !in digits;
    IndexOfAfter(digits, ':', [' '] + detail);
    assert text[..|digits|] == digits;
    assert text[|digits| + 2..] == detail;
    DecimalRoundTrip(code);
  }

  /**
   * Every error ErrorWrap makes reads back as its own code and a detail that is never empty:
   * for 500 the message as given (the default text if it was empty), for any other code the
   * trimmed message (or "Unknown error"), which has no white space at either end.
   */
  lemma ErrorWrapReadBack(code: int, message: string)
    requires code != OK && code != 0
    ensures ErrorWrap(code, message).Some?
    ensures var read := ReadWrapped(ErrorWrap(code, message).value.text);
      && read.Some? && read.value.0 == code
      && var detail := read.value.1;
      && detail != ""
      && (code == InternalError ==> detail == if message == "" then InternalErrorText else message)
      && (code != InternalError ==> TrimSpace(detail) == detail)
      && (code != InternalError && TrimSpace(message) != "" ==> detail == TrimSpace(message))
      && (code != InternalError && TrimSpace(message) == "" ==> detail == UnknownErrorText)
  {
    if code == InternalError {
      var detail := if message == "" then InternalErrorText else message;
      assert ErrorWrap(code, message) == Some(Plain(Decimal(code) + ": " + detail));
      ReadWrappedInverts(code, detail);
    } else if TrimSpace(message) == "" {
      assert ErrorWrap(code, message) == Some(Plain(Decimal(code) + ": " + UnknownErrorText));
      ReadWrappedInverts(code, UnknownErrorText);
      TrimSpaceKeepsTrimmed(UnknownErrorText);
    } else {
      var detail := TrimSpace(message);
      assert ErrorWrap(code, message) == Some(Plain(Decimal(code) + ": " + detail));
      ReadWrappedInverts(code, detail);
      TrimSpaceIdempotent(message);
    }
  }

  /** A message that is already trimmed and not empty is carried over as it is, for codes other than 500. */
  lemma ErrorWrapTrimmed(code: int, message: string)
    requires code != OK && code != 0 && code != InternalError
    requires message != [] && !IsSpace(message[0]) && !IsSpace(message[|message| - 1])
    ensures ErrorWrap(code, message) == Some(Plain(Decimal(code) + ": " + message))
  {
    TrimSpaceKeepsTrimmed(message);
  }

  /** A 400 with a trimmed, non-empty message reads "400: " followed by the message. */
  lemma BadRequestText(message: string)
    requires message != [] && !IsSpace(message[0]) && !IsSpace(message[|message| - 1])
    ensures ErrorWrap(BadRequestError, message) == Some(Plain("400: " + message))
  {
    ErrorWrapTrimmed(BadRequestError, message);
    assert "400" + ": " == "400: ";
    assert Decimal(400) == "400" by {
      assert DigitChar(0) == '0' && DigitChar(4) == '4';
      assert NatDecimal(4) == "4";
      assert NatDecimal(40) == "40";
    }
  }

  // ---------------------------------------------------------------------------------------
  // recheckError
  // ---------------------------------------------------------------------------------------

  /** The error of the transport: its text, and whether it is `http.ErrHandlerTimeout`. */
  datatype TransportError = TransportError(text: string, handlerTimeout: bool)

  /**
   * One round trip as recheckError sees it: the transport error, if any; the HTTP status and
   * the text of the error body; the code and message of the decoded `NormalResponse` (0 and ""
   * when nothing was decoded into it).
   */
  datatype Response = Response(
    transport: Option<TransportError>,
    status: int,
    errorText: string,
    code: int,
    message: string)

  /** resty's `Response.IsError`: a status above 399. */
  predicate IsHttpError(status: int)
  {
    status > 399
  }

  /**
   * `recheckError`: a transport error first (a handler timeout reported as 408), then an HTTP
   * error status, then a business code other than 200.
   */
  function RecheckError(r: Response): (err: Option<Error>)
    ensures err.None? <==> r.transport.None? && !IsHttpError(r.status) && (r.code == OK || r.code == 0)
  {
    if r.transport.Some? then
      if r.transport.value.handlerTimeout then ErrorWrap(StatusRequestTimeout, r.transport.value.text)
      else Some(Plain(r.transport.value.text))
    else if IsHttpError(r.status) then ErrorWrap(r.status, r.errorText)
    else if r.code != OK then ErrorWrap(r.code, r.message)
    else None
  }

  /** The code an error's text starts with, if it has the form `"<code>: <detail>"`. */
  function Code(e: Option<Error>): Option<int>
  {
    if e.Some? && e.value.Plain? then
      match ReadWrapped(e.value.text)
      case Some((code, _)) => Some(code)
      case None => None
    else None
  }

  /**
   * Which failure wins: a transport error other than a timeout comes back unchanged; a
   * timeout is read as 408; then the HTTP status is the code of the error, even if the body
   * carries another; only then the body's code.
   */
  lemma RecheckPriority(r: Response)
    ensures r.transport.Some? && !r.transport.value.handlerTimeout ==>
      RecheckError(r) == Some(Plain(r.transport.value.text))
    ensures r.transport.Some? && r.transport.value.handlerTimeout ==>
      Code(RecheckError(r)) == Some(StatusRequestTimeout)
    ensures r.transport.None? && IsHttpError(r.status) ==>
      Code(RecheckError(r)) == Some(r.status)
    ensures r.transport.None? && !IsHttpError(r.status) && r.code != OK && r.code != 0 ==>
      Code(RecheckError(r)) == Some(r.code)
  {
    if r.transport.Some? {
      if r.transport.value.handlerTimeout {
        ErrorWrapReadBack(StatusRequestTimeout, r.transport.value.text);
      }
    } else if IsHttpError(r.status) {
      ErrorWrapReadBack(r.status, r.errorText);
    } else if r.code != OK && r.code != 0 {
      ErrorWrapReadBack(r.code, r.message);
    }
  }

  /**
   * A reply with HTTP status 200 whose body carries code 400 and a trimmed message (such as
   * "Invalid request from API") fails with "400: " followed by that message.
   */
  lemma BadRequestReply(status: int, message: string)
    requires !IsHttpError(status)
    requires message != [] && !IsSpace(message[0]) && !IsSpace(message[|message| - 1])
    ensures RecheckError(Response(None, status, "", BadRequestError, message)) == Some(Plain("400: " + message))
  {
    BadRequestText(message);
  }

  /**
   * The check of the services whose own test of the transport error runs before
   * recheckError: such an error comes back as it is, a handler timeout included.
   */
  function TransportFirst(r: Response): (err: Option<Error>)
    ensures r.transport.Some? ==> err == Some(Plain(r.transport.value.text))
  {
    if r.transport.Some? then Some(Plain(r.transport.value.text)) else RecheckError(r)
  }

  /** TransportFirst and recheckError fail on the same replies and differ only on a handler timeout. */
  lemma TransportFirstAgrees(r: Response)
    ensures TransportFirst(r).None? <==> RecheckError(r).None?
    ensures TransportFirst(r) != RecheckError(r) ==> r.transport.Some? && r.transport.value.handlerTimeout
  {
  }

  /** A round trip together with what was decoded into the call's `Result` field. */
  datatype Reply<T> = Reply(response: Response, result: T)

  // ---------------------------------------------------------------------------------------
  // invalidInput
  // ---------------------------------------------------------------------------------------

  /**
   * What `invalidInput` makes of an error: anything but a validation map unchanged; an empty
   * map no error; otherwise one error whose text is the entries' messages in ascending order
   * of field name, joined by "; ".
   */
  ghost function Flatten(e: Option<Error>): Option<Error>
  {
    match e
    case Some(Fields(m)) => if |m| == 0 then None else Some(Plain(Join(Messages(m, SortedKeys(m.Keys)), "; ")))
    case _ => e
  }

  /**
   * The messages that the entries of `m` named by `ks` contribute, in the order of `ks`; a
   * nil entry (or a name without one, which indexes as nil) contributes none.
   */
  ghost function Messages(m: map<string, Option<Error>>, ks: seq<string>): seq<string>
    decreases Fields(m), 1, |ks|
  {
    if ks == [] then []
    else
      var k := ks[|ks| - 1];
      Messages(m, ks[..|ks| - 1]) + if k in m then EntryOf(m[k]) else []
  }

  /** The messages one entry contributes: none for a nil entry. */
  ghost function EntryOf(e: Option<Error>): seq<string>
    decreases e, 3
  {
    if e.None? then [] else Contribution(e.value)
  }

  /**
   * The message one entry contributes: the message of a rule failure, the flattened text of a
   * nested map (none if the map is empty), the text of any other error.
   */
  ghost function Contribution(e: Error): seq<string>
    decreases e, 2
  {
    match e
    case Object(message) => [message]
    case Plain(text) => [text]
    case Fields(inner) => if |inner| == 0 then [] else [Join(Messages(inner, SortedKeys(inner.Keys)), "; ")]
  }

  /** Messages of a list grown by one key: the messages so far, then that entry's. */
  lemma MessagesSnoc(m: map<string, Option<Error>>, ks: seq<string>, k: string)
    requires k in m
    ensures Messages(m, ks + [k]) == Messages(m, ks) + EntryOf(m[k])
  {
    assert (ks + [k])[..|ks|] == ks;
  }

  /** The field names of a map, collected by iterating over it and then sorted. */
  method SortedFields(errs: map<string, Option<Error>>) returns (fields: seq<string>)
    ensures fields == SortedKeys(errs.Keys)
  {
    fields := [];
    var rest := errs.Keys;
    while rest != {}
      invariant rest <= errs.Keys
      invariant Distinct(fields)
      invariant forall y :: y in fields <==> y in errs && y !in rest
      decreases rest
    {
      var field :| field in rest;
      fields := fields + [field];
      rest := rest - {field};
    }
    SortListing(fields, errs.Keys);
    fields := Sort(fields);
  }

  /** `invalidInput`. */
  method InvalidInput(e: Option<Error>) returns (r: Option<Error>)
    ensures r == Flatten(e)
    decreases e, 0
  {
    if !(e.Some? && e.value.Fields?) {
      return e;
    }
    var errs := e.value.entries;
    if |errs| == 0 {
      return None;
    }

    var fields := SortedFields(errs);

    var messages: seq<string> := [];
    var i := 0;
    while i < |fields|
      invariant 0 <= i <= |fields|
      invariant messages == Messages(errs, fields[..i])
    {
      var field := fields[i];
      var entry := EntryMessages(errs[field]);
      assert fields[..i + 1] == fields[..i] + [field];
      MessagesSnoc(errs, fields[..i], field);
      messages := messages + entry;
      i := i + 1;
    }
    assert fields[..|fields|] == fields;
    return Some(Plain(Join(messages, "; ")));
  }

  /** One round of the loop of `invalidInput`: the message, if any, that one entry adds. */
  method EntryMessages(e1: Option<Error>) returns (entry: seq<string>)
    ensures entry == EntryOf(e1)
    decreases e1, 1
  {
    entry := [];
    if e1.None? {
      return;
    }
    if e1.value.Object? {
      entry := [e1.value.message];
    } else if e1.value.Fields? {
      var flat := InvalidInput(e1);
      if flat.Some? {
        entry := [flat.value.text];
      }
    } else {
      entry := [e1.value.text];
    }
  }

  /** Messages of a concatenation are the messages of the parts. */
  lemma {:induction false} MessagesAppend(m: map<string, Option<Error>>, xs: seq<string>, ys: seq<string>)
    ensures Messages(m, xs + ys) == Messages(m, xs) + Messages(m, ys)
  {
    if ys != [] {
      var n := |ys| - 1;
      assert (xs + ys)[..|xs + ys| - 1] == xs + ys[..n];
      assert (xs + ys)[|xs + ys| - 1] == ys[n];
      MessagesAppend(m, xs, ys[..n]);
    } else {
      assert xs + ys == xs;
    }
  }

  /** Messages only look at the entries they are asked for. */
  lemma {:induction false} MessagesLocal(m: map<string, Option<Error>>, m': map<string, Option<Error>>, ks: seq<string>)
    requires forall k :: k in ks ==> (k in m <==> k in m') && (k in m ==> m[k] == m'[k])
    ensures Messages(m, ks) == Messages(m', ks)
  {
    if ks != [] {
      MessagesLocal(m, m', ks[..|ks| - 1]);
    }
  }

  /** For a map of rule failures, Messages lists the messages key by key. */
  lemma {:induction false} MessagesOfObjects(v: map<string, string>, ks: seq<string>)
    requires forall k :: k in ks ==> k in v
    ensures var m := map k | k in v :: Some(Object(v[k]));
      && |Messages(m, ks)| == |ks|
      && forall i :: 0 <= i < |ks| ==> Messages(m, ks)[i] == v[ks[i]]
  {
    var m := map k | k in v :: Some(Object(v[k]));
    if ks != [] {
      var n := |ks| - 1;
      MessagesOfObjects(v, ks[..n]);
      assert ks[n] in m && EntryOf(m[ks[n]]) == [v[ks[n]]];
      assert Messages(m, ks) == Messages(m, ks[..n]) + [v[ks[n]]];
      assert forall i :: 0 <= i < n ==> ks[..n][i] == ks[i];
    }
  }

  /**
   * What `ValidateStruct` returns flattens to the rule messages, one per failing field, in
   * ascending order of field name, joined by "; ".
   */
  lemma FlattenValidation(fs: seq<Field>) returns (names: seq<string>, messages: seq<string>)
    requires ValidateStruct(fs).Some?
    ensures StrictlyAscending(names) && (forall k :: k in names <==> k in Violations(fs))
    ensures |messages| == |names| && forall i :: 0 <= i < |names| ==> messages[i] == Violations(fs)[names[i]]
    ensures Flatten(ValidateStruct(fs)) == Some(Plain(Join(messages, "; ")))
  {
    var v := Violations(fs);
    var m := ValidateStruct(fs).value.entries;
    assert m == map k | k in v :: Some(Object(v[k]));
    names := SortedKeys(m.Keys);
    messages := Messages(m, names);
    MessagesOfObjects(v, names);
  }

  /** A nil entry, or a nested map with no entries, contributes nothing to the flattened text. */
  predicate Silent(e: Option<Error>)
  {
    e.None? || e == Some(Fields(map[]))
  }

  /** Dropping one element of a strictly ascending list keeps it strictly ascending, and drops only that element. */
  lemma DropOne(ks: seq<string>, p: nat)
    requires StrictlyAscending(ks) && p < |ks|
    ensures StrictlyAscending(ks[..p] + ks[p + 1..])
    ensures forall y :: y in ks[..p] + ks[p + 1..] <==> y in ks && y != ks[p]
  {
    var shorter := ks[..p] + ks[p + 1..];
    assert forall i :: 0 <= i < |shorter| ==> shorter[i] == ks[if i < p then i else i + 1];
    forall y | y in shorter
      ensures y != ks[p]
    {
      var i :| 0 <= i < |shorter| && shorter[i] == y;
      BelowIrreflexive(y);
    }
    forall y | y in ks && y != ks[p]
      ensures y in shorter
    {
      var i :| 0 <= i < |ks| && ks[i] == y;
      assert shorter[if i < p then i else i - 1] == y;
    }
  }

  /** Leaving out a name whose entry is silent leaves the messages as they were. */
  lemma MessagesWithout(m: map<string, Option<Error>>, ks: seq<string>, p: nat)
    requires p < |ks| && ks[p] in m && Silent(m[ks[p]])
    ensures Messages(m, ks[..p] + ks[p + 1..]) == Messages(m, ks)
  {
    var xs, k, ys := ks[..p], ks[p], ks[p + 1..];
    assert ks == xs + [k] + ys;
    assert Messages(m, [k]) == [] by {
      assert [k][..0] == [];
    }
    MessagesAppend(m, xs + [k], ys);
    MessagesAppend(m, xs, [k]);
    MessagesAppend(m, xs, ys);
  }

  /** The sorted names of a map less one name are its sorted names with that name dropped. */
  lemma SortedKeysWithout(m: map<string, Option<Error>>, k: string) returns (p: nat)
    requires k in m
    ensures p < |SortedKeys(m.Keys)| && SortedKeys(m.Keys)[p] == k
    ensures SortedKeys((m - {k}).Keys) == SortedKeys(m.Keys)[..p] + SortedKeys(m.Keys)[p + 1..]
  {
    var ks := SortedKeys(m.Keys);
    assert k in ks;
    p :| 0 <= p < |ks| && ks[p] == k;
    var shorter := ks[..p] + ks[p + 1..];
    DropOne(ks, p);
    StrictlyAscendingUnique(shorter, SortedKeys((m - {k}).Keys));
  }

  /** Removing a silent entry from a map that keeps other entries leaves the flattened text as it was. */
  lemma FlattenSkipsSilent(m: map<string, Option<Error>>, k: string)
    requires k in m && Silent(m[k]) && |m| > 1
    ensures Flatten(Some(Fields(m - {k}))) == Flatten(Some(Fields(m)))
  {
    var m' := m - {k};
    assert |m'| == |m| - 1;
    var ks := SortedKeys(m.Keys);
    var p := SortedKeysWithout(m, k);
    var shorter := ks[..p] + ks[p + 1..];
    MessagesWithout(m, ks, p);
    assert Messages(m', shorter) == Messages(m, shorter) by {
      DropOne(ks, p);
      MessagesLocal(m, m', shorter);
    }
  }

  /** A failed validation never flattens to "no error": invalidInput turns it into one text. */
  lemma FlattenRejection(fs: seq<Field>)
    requires ValidateStruct(fs).Some?
    ensures Flatten(ValidateStruct(fs)).Some? && Flatten(ValidateStruct(fs)).value.Plain?
  {
  }

  /** Two failing fields flatten to the message of the lesser name, "; ", then the other's. */
  lemma FlattenTwoFields(fs: seq<Field>, a: string, b: string)
    requires Violations(fs).Keys == {a, b} && Below(a, b)
    ensures Flatten(ValidateStruct(fs)) == Some(Plain(Violations(fs)[a] + "; " + Violations(fs)[b]))
  {
    assert a in Violations(fs);
    var names, messages := FlattenValidation(fs);
    assert StrictlyAscending([a, b]);
    StrictlyAscendingUnique(names, [a, b]);
    assert messages == [Violations(fs)[a], Violations(fs)[b]];
  }

  // ---------------------------------------------------------------------------------------
  // The access-token holder
  // ---------------------------------------------------------------------------------------

  /**
   * What a token exchange (POST /getToken) would give back: the round trip, and the access
   * token of the decoded result when the result is not null.
   */
  datatype TokenReply = TokenReply(response: Response, token: Option<string>)

  /** The outcome of `getAccessToken`: the token held afterwards, the error, and whether an exchange was made. */
  datatype Acquired = Acquired(token: string, err: Option<Error>, exchanged: bool)

  /** `getAccessToken`, as a function of the token held and the exchange's reply. */
  function Acquire(held: string, reply: TokenReply): (a: Acquired)
    ensures held != "" ==> a == Acquired(held, None, false)
    ensures held == "" ==> a.exchanged && a.err == RecheckError(reply.response)
    ensures a.token != held ==> a.exchanged && a.err.None? && reply.token == Some(a.token)
    ensures a.err.Some? ==> a.token == held
    ensures held == "" && a.err.None? && reply.token.Some? ==> a.token == reply.token.value
  {
    if held != "" then Acquired(held, None, false)
    else
      var err := RecheckError(reply.response);
      if err.Some? then Acquired(held, err, true)
      else if reply.token.Some? then Acquired(reply.token.value, None, true)
      else Acquired(held, None, true)
  }

  /** What the `OnBeforeRequest` hook does with a request: abort it with an error, or attach a token. */
  datatype Hook = Abort(err: Error) | Attach(token: string)

  /** One run of the hook: what it did, the token held afterwards, and whether it made an exchange. */
  datatype HookStep = HookStep(hook: Hook, token: string, exchanged: bool)

  /** The `OnBeforeRequest` hook, as a function of the token held and the exchange's reply. */
  function BeforeRequest(held: string, reply: TokenReply): (s: HookStep)
    ensures s.hook.Abort? ==> held == "" && s.token == held && RecheckError(reply.response) == Some(s.hook.err)
    ensures held == "" && RecheckError(reply.response).Some? ==> s.hook == Abort(RecheckError(reply.response).value)
    ensures s.hook.Attach? ==> s.hook.token == s.token
    ensures s.exchanged <==> held == ""
    ensures s.token != held ==> held == "" && RecheckError(reply.response).None? && reply.token == Some(s.token)
  {
    var a := Acquire(held, reply);
    if a.err.Some? then HookStep(Abort(a.err.value), a.token, a.exchanged)
    else HookStep(Attach(a.token), a.token, a.exchanged)
  }

  /** A series of requests: what the hook did with each, the token held at the end, and how many exchanges it made. */
  datatype Trace = Trace(hooks: seq<Hook>, token: string, exchanges: nat)

  /** Runs the hook once per request; `replies[i]` is what an exchange during request `i` would give. */
  function Run(held: string, replies: seq<TokenReply>): (t: Trace)
    ensures |t.hooks| == |replies|
    ensures t.exchanges <= |replies|
    ensures t.token != held ==> held == ""
    decreases replies
  {
    if replies == [] then Trace([], held, 0)
    else
      var s := BeforeRequest(held, replies[0]);
      var rest := Run(s.token, replies[1..]);
      Trace([s.hook] + rest.hooks, rest.token, rest.exchanges + if s.exchanged then 1 else 0)
  }

  /** While a token is held, no request makes an exchange and every request carries that token. */
  lemma {:induction false} HeldTokenIsKept(held: string, replies: seq<TokenReply>)
    requires held != ""
    decreases replies
    ensures Run(held, replies).exchanges == 0 && Run(held, replies).token == held
    ensures forall i :: 0 <= i < |replies| ==> Run(held, replies).hooks[i] == Attach(held)
  {
    if replies != [] {
      HeldTokenIsKept(held, replies[1..]);
    }
  }

  /**
   * Starting without a token, once one exchange gives a non-empty token, that is the only
   * exchange and every request carries the token.
   */
  lemma FetchedOnce(held: string, replies: seq<TokenReply>)
    requires held == "" && |replies| > 0 && RecheckError(replies[0].response).None?
    requires replies[0].token.Some? && replies[0].token.value != ""
    ensures Run(held, replies).exchanges == 1
    ensures Run(held, replies).token == replies[0].token.value
    ensures forall i :: 0 <= i < |replies| ==> Run(held, replies).hooks[i] == Attach(replies[0].token.value)
  {
    HeldTokenIsKept(replies[0].token.value, replies[1..]);
  }

  /**
   * The held token changes at most once: once a request carries a non-empty token, every
   * later request carries that same token.
   */
  lemma {:induction false} TokenSetOnlyFromEmpty(held: string, replies: seq<TokenReply>)
    decreases replies
    ensures forall i, j :: 0 <= i < j < |replies| && Run(held, replies).hooks[i].Attach? && Run(held, replies).hooks[i].token != "" ==>
      Run(held, replies).hooks[j] == Run(held, replies).hooks[i]
  {
    if replies != [] {
      var s := BeforeRequest(held, replies[0]);
      var rest := Run(s.token, replies[1..]);
      var t := Run(held, replies);
      assert t.hooks == [s.hook] + rest.hooks;
      TokenSetOnlyFromEmpty(s.token, replies[1..]);
      if s.hook.Attach? && s.hook.token != "" {
        HeldTokenIsKept(s.token, replies[1..]);
      }
      forall i, j | 0 <= i < j < |replies| && t.hooks[i].Attach? && t.hooks[i].token != ""
        ensures t.hooks[j] == t.hooks[i]
      {
        assert t.hooks[j] == rest.hooks[j - 1];
        if i > 0 {
          assert t.hooks[i] == rest.hooks[i - 1];
        }
      }
    }
  }

  /** The client's token state: the `accessToken` field and the token last set on the HTTP client. */
  class Client {
    /** The access token held; empty until an exchange gives one. */
    var accessToken: string
    /** The token the hook last handed to `SetAuthToken`. */
    var authToken: string

    constructor ()
      ensures accessToken == "" && authToken == ""
    {
      accessToken := "";
      authToken := "";
    }

    /** `getAccessToken`: exchanges credentials for a token only while none is held. */
    method GetAccessToken(reply: TokenReply) returns (err: Option<Error>, exchanged: bool)
      modifies this`accessToken
      ensures Acquired(accessToken, err, exchanged) == Acquire(old(accessToken), reply)
    {
      if accessToken != "" {
        return None, false;
      }
      exchanged := true;
      err := RecheckError(reply.response);
      if err.Some? {
        return;
      }
      if reply.token.Some? {
        accessToken := reply.token.value;
      }
    }

    /** The `OnBeforeRequest` hook: fetches a token if none is held, then attaches the one held. */
    method OnBeforeRequest(reply: TokenReply) returns (hook: Hook, exchanged: bool)
      modifies this
      ensures HookStep(hook, accessToken, exchanged) == BeforeRequest(old(accessToken), reply)
      ensures authToken == if hook.Attach? then hook.token else old(authToken)
    {
      exchanged := false;
      if accessToken == "" {
        var err;
        err, exchanged := GetAccessToken(reply);
        if err.Some? {
          return Abort(err.value), exchanged;
        }
      }
      authToken := accessToken;
      hook := Attach(accessToken);
    }
  }
}
