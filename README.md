# A verified model of the areship-go / mazon-go client core

This project models the decisions the Go client for the AreShip (Mazon) shipping API makes
on its own, leaving out the HTTP library around them:

- **errorWrap.** A `(code, message)` pair becomes no error (200 and 0) or the error
  `"<code>: <message>"`. A 500 with an empty message gets the default text. For any other
  code the message is trimmed, and "Unknown error" stands in when nothing is left.
- **recheckError.** The transport error wins, then the HTTP status, then the business code
  of the body. A handler timeout is reported as 408.
- **invalidInput.** A validation map is flattened into one message:
  - entries in ascending order of field name, joined by `"; "`;
  - nil entries skipped, nested maps flattened recursively.
- **The access-token holder.** `Client.accessToken` is fetched by `getAccessToken` only while
  it is empty, and is written only on a successful exchange. The `OnBeforeRequest` hook then
  attaches it to every request.
- **The request validators.** These are written with ozzo-validation:
  - `CreateOrderRequest`, `OrderQueryRequest` and `CancelOrderRequest` of `order.service.go`;
  - `RateCalcRequest` of `rate.service.go`;
  - the older `CreateOrderRequest` of `order.go`;
  - `ShippingLabelDetailRequest` of `shipping.label.service.go`.

  The library's semantics are modelled: the rules of a field run in order and stop at the
  first failure, `Required` rejects blank values, `Length` and `In` skip them, and `When`
  guards. The rejected messages are keyed by the fields' JSON names.
- **Validate-before-send.** The service methods are `Create`, `Query`, `Cancel`, `Calc`,
  `Detail` and the older `Create`. An invalid request comes back as an error and no request
  is built.
- **The scan-form service.** The tracking numbers are trimmed and the blank ones dropped. When
  none is left the call fails with "无效的跟踪号"; otherwise the rest are sent joined by ",".

The modules follow the source:

| module | contents |
|---|---|
| `Wrappers` | `Option` |
| `GoStrings` | What the client uses of Go's standard library: `strings.TrimSpace`, `strings.Join` (with a `Split` as its inverse), `sort.Strings`, `%d` and `len` in bytes |
| `Validation` | The ozzo-validation rules and `ValidateStruct` |
| `Client` | `client.go` |
| `OrderService`, `RateService`, `LegacyOrder`, `ShippingLabelService`, `ScanFormService` | One file each |

Pure Go code is modelled by functions and lemmas. The code of `client.go` that works step by
step is modelled imperatively:

- `invalidInput`, with its loops over the map and the sorted names, is the method
  `Client.InvalidInput`. It is proved equal to the specification function `Client.Flatten`.
- The token field is the class `Client.Client`. Its methods are proved against
  `Client.Acquire` and `Client.BeforeRequest`.
- The loop of `scanFormService.Create` is the method `ScanFormService.Normalize`. It is proved
  against `ScanFormService.Normalized`, which is `Kept`, the generic trim-and-drop, applied
  with TrimSpace.

Calls into the network are parameters:

- a `Response` records what came back (the transport error, the HTTP status, the error body's
  text, and the body's code and message);
- a `Reply` adds the decoded result to it;
- a `TokenReply` is what a token exchange gives.

A service that returns its transport error before calling recheckError (Query, Cancel and
Detail) is checked with `Client.TransportFirst`, which does not turn a handler timeout into
408.

## Model

| member | source | states |
|---|---|---|
| GoStrings.TrimLeftCuts | client.go:143 | The result is a suffix of the input that does not start with white space, and everything cut before it is white space |
| GoStrings.TrimRightCuts | client.go:143 | The result is a prefix of the input that does not end with white space, and everything cut after it is white space |
| GoStrings.TrimSpaceCuts | client.go:143 | `strings.TrimSpace`: the result is the input with a run of white space cut at each end, and it neither starts nor ends with white space |
| GoStrings.TrimSpace | client.go:143 | No contract of its own; characterised by `TrimSpaceCuts`, `TrimSpaceKeepsTrimmed`, `TrimSpaceIdempotent`, `TrimSpaceEmptyIff` and `TrimSpacePadded` |
| GoStrings.TrimSpaceKeepsTrimmed | client.go:143 | Text with no white space at either end is left unchanged |
| GoStrings.TrimSpaceIdempotent | scan.form.service.go:18 | Trimming twice is trimming once |
| GoStrings.TrimSpaceEmptyIff | client.go:143-146 | Trimming leaves nothing exactly when the text is all white space |
| GoStrings.TrimLeftPadded | scan.form.service.go:18 | Cutting leading white space stops at the first character that is not white space |
| GoStrings.TrimRightPadded | scan.form.service.go:18 | Cutting trailing white space stops at the last character that is not white space |
| GoStrings.TrimSpacePadded | scan.form.service_test.go:80-81 | Padding a trimmed, non-empty text with white space on both sides trims back to that text |
| GoStrings.SplitJoin | scan.form.service.go:33 | A non-empty list of texts none of which contains the separator, once joined, splits back into the same list: the joined `tracking_number` loses nothing |
| GoStrings.Join | client.go:190 | No contract of its own; characterised by `SplitJoin`, and used for both `"; "` and `","` |
| GoStrings.Sort | client.go:167 | `sort.Strings`: the result is ascending and a permutation of the input |
| GoStrings.SortKeepsDistinct | client.go:167 | Sorting distinct names keeps them distinct |
| GoStrings.StrictlyAscendingUnique | client.go:164-167 | Two strictly ascending lists with the same elements are equal, so the sorted field names are unique |
| GoStrings.SortedKeys | client.go:164-167 | The names of a map, strictly ascending: exactly the map's keys |
| GoStrings.SortListing | client.go:164-167 | Sorting any listing of a map's keys without repeats gives `SortedKeys` |
| GoStrings.NatDecimal | client.go:149 | The `%d` text of a natural number is a non-empty run of decimal digits |
| GoStrings.Decimal | client.go:149 | The `%d` text of an integer is non-empty and all digits, except for a leading `-` |
| GoStrings.DecimalRoundTrip | client.go:149 | Parsing `%d`'s text gives the number back |
| GoStrings.ByteLength | order.service.go:52 | `len` of a string counts UTF-8 bytes: at least one per character and at most four, and exactly one per character for ASCII text |
| GoStrings.ByteLengthOfWide | order.service.go:52 | Text of three-byte characters, the CJK ideographs among them, is three times as long in bytes as in characters |
| Validation.ValidateStruct | order.service.go:43-78 | No error when no field fails; otherwise a map with one rule-failure entry per failing field, holding the field's message |
| Validation.Check | order.service.go:43-78 | ozzo's rule chain for one field; no contract of its own, characterised by `RequiredThenLength`, `RequiredOnly`, `GuardedLength`, `GuardedRequired`, `GuardedIn` and `GuardedDate` |
| Validation.Violations | order.service.go:43-78 | The map of failing fields; no contract of its own, characterised by `ViolationsAt`, `ReportedAt`, `Unreported`, `NotTagged` and `ViolationsEmpty` |
| Validation.ViolationsAt | order.service.go:43-78 | With distinct field names, a field has an entry exactly when its rules fail, and the entry is its first failing rule's message |
| Validation.ReportedAt | order.service.go:43-78 | What the map reports for a field is the outcome of that field's rules alone |
| Validation.Unreported | order.service.go:43-78 | When no field's name is reported, the map is empty |
| Validation.NotTagged | order.service.go:43-78 | A name that no field carries gets no entry |
| Validation.ViolationsEmpty | order.service.go:43-78 | The map is empty exactly when every field's rules pass |
| Validation.RequiredThenLength | order.service.go:44-47 | Required then Length(min, max): the first message when empty, the second when the length is out of bounds, no error otherwise |
| Validation.RequiredOnly | order.service.go:48 | A lone Required fails exactly on blank values |
| Validation.GuardedLength | order.service.go:49 | A guarded Length(1, max) fails only when the guard holds and the value is present and too long |
| Validation.GuardedRequired | order.service.go:152-153 | A guarded Required fails exactly when the guard holds and the value is blank |
| Validation.GuardedIn | order.service.go:70-74 | In, guarded or not, fails exactly on a present value outside the list |
| Validation.GuardedDate | order.service.go:114-115 | A guarded Date fails exactly when the guard holds and a present text does not parse |
| Validation.EitherOfValidIff | order.service.go:150-155 | Two fields that are each required only when the other is blank pass exactly when one or both are given |
| Validation.EitherOfBothMissing | order.service.go:150-155 | When both are blank, both fields are reported, each with its own message |
| Validation.LengthAsWrittenOnAscii | order.service.go:46 | On ASCII text, the byte-counting Length rule agrees with the character-counting one |
| Validation.LengthAsWritten | order.service.go:52 | ozzo's Length as it measures text, in UTF-8 bytes; no contract of its own, characterised by `LengthAsWrittenOnAscii`, `OrderService.LongNameRejectedAsWritten` and `OrderService.ShortNameAcceptedAsWritten` |
| Validation.FieldsAsWrittenTags | order.service.go:43-78 | Running every Length rule in bytes keeps the fields' JSON names and their distinctness |
| Client.ErrorWrap | client.go:131-150 | No error exactly for 200 and 0; any other code yields a plain error |
| Client.ReadWrappedInverts | client.go:149 | `"<code>: <detail>"` reads back as that code and that detail |
| Client.ErrorWrapReadBack | client.go:136-149 | Every error made reads back with its own code and a non-empty detail. For 500 the detail is the message verbatim (not trimmed) or the default text. For any other code it is the trimmed message, or "Unknown error" when trimming leaves nothing |
| Client.ErrorWrapTrimmed | client.go:142-149 | For codes other than 200, 0 and 500, a trimmed non-empty message is carried over unchanged |
| Client.BadRequestText | client.go:149 | A 400 with a trimmed message reads "400: " followed by the message |
| Client.RecheckError | client.go:193-209 | No error exactly when there is no transport error, no HTTP error status, and the body code is 200 or 0 |
| Client.RecheckPriority | client.go:194-207 | A transport error is returned unchanged, and a handler timeout is read as 408. Then the HTTP status is the error's code, even when the body carries another. Only then comes the body's code |
| Client.BadRequestReply | scan.form.service_test.go:91-97 | An HTTP 200 reply whose body has code 400 and a trimmed message fails with "400: " and that message |
| Client.TransportFirst | order.service.go:135-141 | The services that test the transport error themselves return it as it is |
| Client.TransportFirstAgrees | order.service.go:135-141 | That check fails on the same replies as recheckError, and differs from it only on a handler timeout |
| Client.MessagesSnoc | client.go:169-189 | The messages of a list of names grown by one are the earlier messages followed by that entry's |
| Client.MessagesAppend | client.go:169-189 | The messages of a concatenation of name lists are the messages of the parts, concatenated |
| Client.MessagesLocal | client.go:169-189 | The messages depend only on the entries they name |
| Client.MessagesOfObjects | client.go:169-188 | For a map of rule failures, the messages are the entries' messages, name by name |
| Client.SortedFields | client.go:162-167 | Collecting a map's names in a loop and sorting them gives the strictly ascending list of its keys |
| Client.InvalidInput | client.go:152-191 | `invalidInput` equals `Flatten`: anything but a validation map is unchanged, and an empty map gives no error. Otherwise one plain error: the messages of the entries in ascending field-name order, joined by "; ", with nil entries skipped and nested maps flattened, dropped when they flatten to nothing |
| Client.Flatten | client.go:152-191 | The specification of `invalidInput`; no contract of its own, characterised by `Client.InvalidInput`, `FlattenValidation`, `FlattenSkipsSilent`, `FlattenRejection` and `FlattenTwoFields` |
| Client.EntryMessages | client.go:170-188 | One round of the loop: a nil entry adds nothing, a rule failure its message, a nested map its flattened text if any, any other error its text |
| Client.FlattenValidation | client.go:162-190 | A failed ValidateStruct flattens to the failing fields' messages, one per field, in strictly ascending order of field name, joined by "; " |
| Client.DropOne | client.go:162-190 | Dropping one name from a strictly ascending list keeps it strictly ascending and drops only that name |
| Client.MessagesWithout | client.go:171-184 | Leaving out a name whose entry is nil or an empty nested map changes no message |
| Client.SortedKeysWithout | client.go:164-167 | The sorted names of a map less one name are its sorted names with that name dropped |
| Client.FlattenSkipsSilent | client.go:171-184 | Removing a nil or empty nested entry from a map with other entries leaves the flattened text unchanged |
| Client.FlattenRejection | client.go:158-190 | A failed validation never flattens to "no error": it becomes one plain text |
| Client.FlattenTwoFields | client.go:162-190 | Two failing fields flatten to the lesser name's message, "; ", then the other's |
| Client.Acquire | client.go:91-128 | With a token held: no exchange, no error, the token kept. Without one: an exchange whose error is recheckError's. The token changes only after a successful exchange that gave one, a successful exchange that gave one stores it, and a failed exchange leaves it as it was |
| Client.BeforeRequest | client.go:55-64 | The hook aborts exactly when no token was held and the exchange failed, with recheckError's error, and the token stays as it was. Otherwise it attaches the token held afterwards, which may still be empty. It exchanges exactly when no token was held |
| Client.Run | client.go:55-64 | A series of requests runs the hook once per request, makes at most one exchange per request, and ends with a different token only when it started with none |
| Client.HeldTokenIsKept | client.go:56-62 | While a token is held, no request makes an exchange and every request carries that token |
| Client.FetchedOnce | client.go:56-62 | Starting empty, once an exchange gives a token, it is the only exchange and every request carries that token |
| Client.TokenSetOnlyFromEmpty | client.go:56-62 | The token changes at most once: once a request carries a non-empty token, every later request carries that same token |
| Client.Client.constructor | client.go:38-42 | A new client holds no token |
| Client.Client.GetAccessToken | client.go:91-128 | The method's new token, error and exchange flag are those of `Acquire` on the old token |
| Client.Client.OnBeforeRequest | client.go:55-64 | The hook's outcome and new token are those of `BeforeRequest`, and the token set on the HTTP client is the one attached |
| OrderService.CreateOrderTagsDistinct | order.service.go:21-40 | The order's fields have distinct JSON names |
| OrderService.CreateOrderRequest.Fields | order.service.go:43-78 | The fields, JSON names and rules of `CreateOrderRequest.Validate`; no contract of its own, characterised by `OrderRules`, `RecipientRules`, `DestinationRules` and `ParcelAndShipperRules` |
| OrderService.CreateOrderRequest.Validate | order.service.go:42-79 | No contract of its own; characterised by `CreateOrderValidIff` |
| OrderService.CreateOrderRequest.ValidateAsWritten | order.service.go:42-79 | The same validator with every Length counting bytes; characterised by `LongNameOrderRejectedAsWritten` |
| OrderService.OrderRules | order.service.go:44-49 | Reference number: its required message when empty, its length message beyond 35 characters. Product code: required. Remark: at most 35 characters, checked only when valid |
| OrderService.RecipientRules | order.service.go:50-54 | Name: required, 3 to 35 characters. Company: at most 35 when valid. Telephone: required, 10 to 15 characters. Each field reports its own message |
| OrderService.DestinationRules | order.service.go:55-65 | First address line: required and 1 to 35 characters. Second line: at most 35 when valid. Postcode, state, city and country: required |
| OrderService.ParcelAndShipperRules | order.service.go:70-77 | A valid signature service must be ASS or SSF. A weight unit type other than 0 must be 1 or 2. The box list and shipper code are required. The shipper address, a struct held by value, is never reported |
| OrderService.LongNameRejectedAsWritten | order.service.go:52 | As written, a name of twelve CJK characters (36 bytes) fails the 3–35 rule, while the character-counting rule accepts it |
| OrderService.ShortNameAcceptedAsWritten | order.service.go:52 | As written, a name of two CJK characters (6 bytes) passes, while the character-counting rule turns it down |
| OrderService.LongNameOrderRejectedAsWritten | order.service.go:42-79 | An order that is acceptable in characters but has a twelve-character CJK recipient name passes `Validate` and is turned down by the validator as written, which reports `oa_firstname` with the 3-to-35 message |
| OrderService.CreateOrderValidIff | order.service.go:42-79 | An order passes validation exactly when every field rule above holds |
| OrderService.QueryRules | order.service.go:111-117 | The type must be 1 or 2 when set, and 0 is skipped. Each date is checked against the layout only when given |
| OrderService.OrderQueryRequest.Validate | order.service.go:111-117 | No contract of its own; characterised by `QueryRules` and `QueryValidIff` |
| OrderService.QueryValidIff | order.service.go:111-117 | A search passes exactly when its type is 0, 1 or 2 and its given dates parse |
| OrderService.CancelValidIff | order.service.go:150-155 | A cancellation is valid exactly when it has an order code or a reference number, or both |
| OrderService.CancelOrderRequest.Validate | order.service.go:150-155 | No contract of its own; characterised by `CancelValidIff` and `CancelNamingNothing` |
| OrderService.CancelNamingNothing | order.service.go:150-155 | With neither, both fields are reported, and they flatten to the order-code message, "; ", then the reference message |
| OrderService.Create | order.service.go:83-101 | It sends exactly when the order is valid; otherwise the error is the flattened rejection. The body is never decoded, so once sent only the transport and the HTTP status can fail the call |
| OrderService.Query | order.service.go:121-143 | It sends exactly when the search is valid, and otherwise returns the flattened rejection. Once sent, the transport error is returned as it is, then recheckError decides. The orders come back only when there is no error |
| OrderService.Cancel | order.service.go:160-182 | It sends exactly when a code is given, and otherwise returns the two messages joined. Once sent, the transport error and then recheckError decide, and the result comes back only without error |
| RateService.RateTagsDistinct | rate.service.go:21-41 | The fields have distinct JSON names |
| RateService.RateOrderRules | rate.service.go:45-50 | Reference number: required, at most 35 characters. Product code: required. A non-empty remark: at most 35 characters |
| RateService.RateRecipientRules | rate.service.go:51-55 | Name: required, 3 to 35 characters. A non-empty company: at most 35. Telephone: required, 10 to 15 characters |
| RateService.RateDestinationRules | rate.service.go:56-66 | First address line: required and at most 35 characters. A valid second line: at most 35. Postcode, state, city and country: required |
| RateService.RateParcelRules | rate.service.go:71-76 | A valid signature service must be ASS or SSF, a weight unit type other than 0 must be 1 or 2, and boxes are required |
| RateService.ShipperRules | rate.service.go:77-78 | A shipper address (non-nil) or a shipper code must be given. When neither is, both fields report the same message |
| RateService.RateValidIff | rate.service.go:43-80 | A rate request passes validation exactly when every field rule above holds |
| RateService.RateCalcRequest.Validate | rate.service.go:43-80 | No contract of its own; characterised by the `Rate*Rules`, `ShipperRules` and `RateValidIff` rows |
| RateService.Calc | rate.service.go:84-103 | It sends exactly when the request is valid, and otherwise returns the flattened rejection. Once sent, recheckError decides, and the quote comes back only without error |
| LegacyOrder.LegacyTagsDistinct | order.go:18-44 | The fields have distinct JSON names |
| LegacyOrder.RecipientRequired | order.go:48-56 | Reference, product code, name and telephone each report their own message exactly when empty, with no length bound |
| LegacyOrder.DestinationRequired | order.go:51-57 | Address 1, postcode, state, city and country each report their message exactly when empty. The box list is reported only for a multi-box order with no boxes |
| LegacyOrder.LegacyValidIff | order.go:46-59 | An order is valid exactly when the nine texts are filled in and, for a multi-box order, boxes are given |
| LegacyOrder.CreateOrderRequest.Validate | order.go:46-59 | No contract of its own; characterised by `RecipientRequired`, `DestinationRequired`, `LegacyValidIff` and `UnlistedFieldsIgnored` |
| LegacyOrder.UnlistedFieldsIgnored | order.go:46-59 | Remark, callback URL, PO and VAT codes and the other unlisted fields never change the outcome |
| LegacyOrder.Create | order.go:77-97 | Nothing is sent when the order is invalid, and then the raw validation map is returned, not flattened. A transport error comes back as it is. Otherwise the result is filled exactly when the body decodes, and the decode error is returned when it does not |
| ShippingLabelService.DetailValidIff | shipping.label.service.go:18-23 | A request is valid exactly when it names the order code or the reference number; both is fine |
| ShippingLabelService.ShippingLabelDetailRequest.Validate | shipping.label.service.go:18-23 | No contract of its own; characterised by `DetailValidIff` and `DetailNamingNothing` |
| ShippingLabelService.DetailNamingNothing | shipping.label.service.go:20-21 | With neither, both fields are reported, and they flatten with "order_code"'s message before "reference_no"'s |
| ShippingLabelService.Detail | shipping.label.service.go:27-49 | It sends exactly when a code is given, and otherwise returns the two messages. Once sent, the transport error and then recheckError decide, and the label comes back only without error |
| ScanFormService.KeptTrimmed | scan.form.service.go:16-22 | With an idempotent trimming function, every number kept is trimmed and non-empty, and never more are kept than were given |
| ScanFormService.Kept | scan.form.service.go:16-22 | The trim-and-drop for any trimming function; no contract of its own, characterised by `KeptTrimmed`, `KeptSnoc`, `KeptEmptyIff` and `KeptKeepsOrder` |
| ScanFormService.Normalized | scan.form.service.go:16-22 | `Kept` with TrimSpace, the specification of `Normalize`; characterised by `NormalizedTrimmed`, `NormalizedIdempotent` and `TrackingNumberSplits` |
| ScanFormService.NormalizedTrimmed | scan.form.service.go:16-22 | Every number `Normalized` keeps is trimmed and non-empty, and never more are kept than were given |
| ScanFormService.KeptSnoc | scan.form.service.go:17-21 | One round of the loop: one more input is kept, trimmed, exactly when it does not trim to nothing |
| ScanFormService.NormalizedIdempotent | scan.form.service.go:17-21 | Normalizing what normalizing kept changes nothing |
| ScanFormService.KeptEmptyIff | scan.form.service.go:16-25 | For any trimming function, and so for `Normalized`, which trims with TrimSpace: nothing is kept exactly when every input trims to nothing, the empty input included |
| ScanFormService.KeptKeepsOrder | scan.form.service.go:16-22 | For any trimming function, and so for `Normalized`: the kept numbers are exactly the trimmed non-blank inputs, in input order. Each comes from a strictly increasing position, and every non-blank input is among them |
| ScanFormService.TrackingNumberSplits | scan.form.service.go:33 | When no input holds a comma, the sent `tracking_number` splits back into the kept numbers |
| ScanFormService.TwoNumbersJoined | scan.form.service_test.go:80-81 | A trimmed number followed by a white-space-padded one is sent as the first, ",", the second unpadded (the test's "TN123", "  TN456  " gives "TN123,TN456") |
| ScanFormService.Normalize | scan.form.service.go:16-22 | The loop that trims each number and appends the non-empty ones computes `Normalized` |
| ScanFormService.Create | scan.form.service.go:15-40 | When nothing is kept, it fails with "无效的跟踪号" and sends nothing. Otherwise it sends the kept numbers joined by "," and recheckError decides. The forms come back only then, without error |

## Left out

- HTTP wiring is not modelled: resty, base URLs, headers, timeouts and JSON encoding of the
  request. A round trip is a parameter.
- Retries are not modelled. The transport's two retries are inside resty, and each
  `Response` is the outcome after them.
- The panicking `resp.Error().(string)` assertion of recheckError is not modelled. The
  error body is taken to be its text.
- Concurrency is not modelled: `accessToken` is shared by concurrent requests without a lock.
  The model is single-threaded.
- Token expiry, caching on disk and re-authentication are not modelled because the code has
  none. `TokenDuration` of `config/config.go` is never read.
- `validation.Date(time.DateTime)` is not defined here. Its layout parser is a parameter
  `dateTime: string -> bool`.
- Message templating is not modelled. ozzo-validation runs each message through Go's
  templates. `{.min}`/`{.max}` are not template actions, since those need double braces, so
  the messages come out as written and are kept as literal texts.
- Floats are not modelled: box dimensions, weights and declared values. No rule looks at them.
- Boxes are known only by how many there are.
- `entity.Address` (the shipper address of order.service.go) is not looked into. It is
  a struct held by value, which Required never finds empty.
- OrderService.Create: returns no created order. The source returns the zero
  `CreateOrderResult`, because nothing is decoded into it.
- Query, Cancel, Detail, Calc and ScanFormService.Create: the decoded result is a parameter
  `reply.result`. The body code and message recheckError sees are given in the same reply.
- LegacyOrder.Create: the outcome of `json.Unmarshal` is a parameter.
- Invalid UTF-8 is not modelled. Go strings are byte strings and may hold any bytes, while the
  model's strings are sequences of Unicode scalar values. `TrimSpace`, the byte order of
  `sort.Strings` and `len` in bytes are modelled for valid UTF-8 only.
- Integer width is not modelled. Go's `int` codes and counts are unbounded here; no operation
  of the core does arithmetic on them that could wrap.
- `NewClient`, `services.go`, `user.service.go`, `user.info.go` and the files under `entity/`
  are not part of the model. They are construction, pass-through calls and record types.
- The tests other than the scan-form test run against the live service and are not part
  of the model.
- `ErrInvalidTrackingNumber`, which the scan-form test compares with, is not declared in
  scan.form.service.go. The model uses the service's own message "无效的跟踪号".
- ScanFormService.TwoNumbersJoined: states the test's case for any trimmed number and any
  white-space padding, not for the literal strings "TN123" and "  TN456  ".
- Validation.Check: its Length rule counts characters, not UTF-8 bytes as
  ozzo-validation's does (see Findings). `Validation.LengthAsWritten` is the byte-counting
  rule.
  `Validation.FieldsAsWritten` turns every Length rule of a validator into that rule, and
  `CreateOrderRequest.ValidateAsWritten` is the order validator run that way.
- The `recheckError` and `invalidInput` that rate.service.go and scan.form.service.go
  (package `mazon`) call are taken to be those of client.go (package `areship`). The mazon
  package's own client file is not part of the model, so `RateService.Calc` and
  `ScanFormService.Create` are tied to `Client.RecheckError` and `Client.InvalidInput`.

## Findings

| source | as written | input that shows it | evidently intended | confidence | as-written member | corrected member |
|---|---|---|---|---|---|---|
| order.service.go:52 | `validation.Length(3, 35)` measures a string with Go's `len`, in UTF-8 bytes. The same holds for every Length rule of order.service.go:46-68 and rate.service.go:47-69; the whole validator run that way is modelled for the order request only | An `oa_firstname` of twelve Chinese characters is 36 bytes and is rejected. A name of two Chinese characters is 6 bytes and is accepted | The bounds are in characters, as the messages say ("收件人长度必须在 {.min} ~ {.max} 个字符"): ozzo's `RuneLength` | medium, not executed | OrderService.LongNameOrderRejectedAsWritten | OrderService.RecipientRules |
