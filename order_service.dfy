/**
 * The order service of order.service.go: the rules of `CreateOrderRequest`,
 * `OrderQueryRequest` and `CancelOrderRequest`, and the services Create, Query and Cancel,
 * which validate a request before they send it.
 */
module OrderService {
  import opened Wrappers
  import opened GoStrings
  import opened Validation
  import opened Client

  // ---------------------------------------------------------------------------------------
  // CreateOrderRequest
  // ---------------------------------------------------------------------------------------

  const ReferenceNoTag := "reference_no"
  const SmCodeTag := "sm_code"
  const RemarkTag := "remark"
  const FirstnameTag := "oa_firstname"
  const CompanyTag := "oa_company"
  const StreetAddress1Tag := "oa_street_address1"
  const StreetAddress2Tag := "oa_street_address2"
  const PostcodeTag := "oa_postcode"
  const StateTag := "oa_state"
  const CityTag := "oa_city"
  const CountryTag := "oa_country"
  const TelephoneTag := "oa_telphone"
  const SignatureServiceTag := "signature_service"
  const WeightUnitTypeTag := "weight_unit_type"
  const BoxListTag := "box_list"
  const ShipperAddressTag := "shipper_address"
  const ShipperCodeTag := "shipper_code"

  // The messages are the rules' own texts. Their `{.min}` and `{.max}` are not template
  // actions (Go's templates are delimited by double braces), so they stay in the text.
  const ReferenceNoRequired := "订单参考号不能为空"
  const ReferenceNoTooLong := "订单参考号不能超过 {.max} 个字符"
  const SmCodeRequired := "物流产品代码不能为空"
  const RemarkTooLong := "备注不能超过 {.max} 个字符"
  const FirstnameRequired := "收件人不能为空"
  const FirstnameLength := "收件人长度必须在 {.min} ~ {.max} 个字符"
  const CompanyTooLong := "收件人公司不能超过 {.max} 个字符"
  const StreetAddress1Required := "收件人地址1不能为空"
  const StreetAddress1TooLong := "收件人地址1长度不能超过 {.max} 个字符"
  const StreetAddress2TooLong := "收件人地址2长度不能超过 {.max} 个字符"
  const PostcodeRequired := "收件人邮编不能为空"
  const StateRequired := "收件人州不能为空"
  const CityRequired := "收件人城市不能为空"
  const CountryRequired := "收件人国家（国家二字码）不能为空"
  const TelephoneRequired := "收件人电话不能为空"
  const TelephoneLength := "收件人电话长度必须在 {.min} ~ {.max} 个字符"
  const SignatureServiceInvalid := "签名服务参数错误"
  const WeightUnitTypeInvalid := "包裹单位类型参数错误"
  const BoxListRequired := "包裹信息不能为空"
  const ShipperAddressRequired := "发件人信息不能为空"
  const ShipperCodeRequired := "发件人编码不能为空"

  /** The signature services on offer: adult signature and plain signature. */
  const SignatureServices := [Str("ASS"), Str("SSF")]
  /** Imperial and metric units. */
  const WeightUnitTypes := [Int(1), Int(2)]

  /**
   * An order to create. The boxes are known by their number (their float dimensions are
   * never validated). The shipper address is an `entity.Address` held by value: a struct,
   * which the Required rule never finds empty, so the model does not look inside it.
   */
  datatype CreateOrderRequest = CreateOrderRequest(
    referenceNo: string,
    smCode: string,
    remark: NullString,
    firstname: string,
    company: NullString,
    streetAddress1: string,
    streetAddress2: NullString,
    postcode: string,
    state: string,
    city: string,
    country: string,
    telephone: string,
    isMoreBox: int,
    signatureService: NullString,
    weightUnitType: int,
    boxes: nat,
    shipperCode: string)
  {
    /** The fields and rules of `CreateOrderRequest.Validate`. */
    function Fields(): seq<Field>
    {
      [ Field(ReferenceNoTag, Str(referenceNo), [Required(ReferenceNoRequired), Length(1, 35, ReferenceNoTooLong)]),
        Field(SmCodeTag, Str(smCode), [Required(SmCodeRequired)]),
        Field(RemarkTag, Nullable(remark), [When(remark.valid, [Length(1, 35, RemarkTooLong)])]),
        Field(FirstnameTag, Str(firstname), [Required(FirstnameRequired), Length(3, 35, FirstnameLength)]),
        Field(CompanyTag, Nullable(company), [When(company.valid, [Length(1, 35, CompanyTooLong)])]),
        Field(StreetAddress1Tag, Str(streetAddress1), [Required(StreetAddress1Required), Length(1, 35, StreetAddress1TooLong)]),
        Field(StreetAddress2Tag, Nullable(streetAddress2), [When(streetAddress2.valid, [Length(1, 35, StreetAddress2TooLong)])]),
        Field(PostcodeTag, Str(postcode), [Required(PostcodeRequired)]),
        Field(StateTag, Str(state), [Required(StateRequired)]),
        Field(CityTag, Str(city), [Required(CityRequired)]),
        Field(CountryTag, Str(country), [Required(CountryRequired)]),
        Field(TelephoneTag, Str(telephone), [Required(TelephoneRequired), Length(10, 15, TelephoneLength)]),
        Field(SignatureServiceTag, Nullable(signatureService),
              [When(signatureService.valid, [In(SignatureServices, SignatureServiceInvalid)])]),
        Field(WeightUnitTypeTag, Int(weightUnitType), [In(WeightUnitTypes, WeightUnitTypeInvalid)]),
        Field(BoxListTag, Slice(boxes), [Required(BoxListRequired)]),
        Field(ShipperAddressTag, Struct, [Required(ShipperAddressRequired)]),
        Field(ShipperCodeTag, Str(shipperCode), [Required(ShipperCodeRequired)]) ]
    }

    /** `CreateOrderRequest.Validate`. */
    function Validate(): Option<Error>
    {
      ValidateStruct(Fields())
    }

    /** `CreateOrderRequest.Validate` as the library runs it, with every Length counting bytes. */
    function ValidateAsWritten(): Option<Error>
    {
      ValidateStruct(FieldsAsWritten(Fields()))
    }

    /** The message the validation reports for `tag`, if any. */
    function Reports(tag: string): Option<string>
    {
      Reported(Violations(Fields()), tag)
    }

    /** What an order must satisfy, field by field, lengths counted in characters. */
    predicate Acceptable()
    {
      && 1 <= |referenceNo| <= 35
      && smCode != ""
      && (remark.valid ==> |remark.s| <= 35)
      && 3 <= |firstname| <= 35
      && (company.valid ==> |company.s| <= 35)
      && 1 <= |streetAddress1| <= 35
      && (streetAddress2.valid ==> |streetAddress2.s| <= 35)
      && postcode != "" && state != "" && city != "" && country != ""
      && 10 <= |telephone| <= 15
      && (signatureService.valid && signatureService.s != "" ==> Str(signatureService.s) in SignatureServices)
      && (weightUnitType == 0 || Int(weightUnitType) in WeightUnitTypes)
      && boxes > 0
      && shipperCode != ""
    }
  }

  /**
   * What the validation reports for the order's own fields: a missing or over-long reference
   * (it must have 1 to 35 characters), a missing product code, and a present remark of more
   * than 35 characters.
   */
  lemma OrderRules(req: CreateOrderRequest)
    ensures req.Reports(ReferenceNoTag) ==
      if req.referenceNo == "" then Some(ReferenceNoRequired)
      else if |req.referenceNo| > 35 then Some(ReferenceNoTooLong) else None
    ensures req.Reports(SmCodeTag) == if req.smCode == "" then Some(SmCodeRequired) else None
    ensures req.Reports(RemarkTag) ==
      if req.remark.valid && |req.remark.s| > 35 then Some(RemarkTooLong) else None
  {
    CreateOrderTagsDistinct(req);
    ReportedAt(req.Fields(), 0);
    ReportedAt(req.Fields(), 1);
    ReportedAt(req.Fields(), 2);
    RequiredThenLength(req.referenceNo, 1, 35, ReferenceNoRequired, ReferenceNoTooLong);
    RequiredOnly(Str(req.smCode), SmCodeRequired);
    GuardedLength(Nullable(req.remark), req.remark.valid, 35, RemarkTooLong);
  }

  /**
   * What the validation reports for the recipient: a name must have 3 to 35 characters, a
   * present company at most 35, and a telephone 10 to 15.
   */
  lemma RecipientRules(req: CreateOrderRequest)
    ensures req.Reports(FirstnameTag) ==
      if req.firstname == "" then Some(FirstnameRequired)
      else if |req.firstname| < 3 || |req.firstname| > 35 then Some(FirstnameLength) else None
    ensures req.Reports(CompanyTag) ==
      if req.company.valid && |req.company.s| > 35 then Some(CompanyTooLong) else None
    ensures req.Reports(TelephoneTag) ==
      if req.telephone == "" then Some(TelephoneRequired)
      else if |req.telephone| < 10 || |req.telephone| > 15 then Some(TelephoneLength) else None
  {
    CreateOrderTagsDistinct(req);
    ReportedAt(req.Fields(), 3);
    ReportedAt(req.Fields(), 4);
    ReportedAt(req.Fields(), 11);
    RequiredThenLength(req.firstname, 3, 35, FirstnameRequired, FirstnameLength);
    GuardedLength(Nullable(req.company), req.company.valid, 35, CompanyTooLong);
    RequiredThenLength(req.telephone, 10, 15, TelephoneRequired, TelephoneLength);
  }

  /**
   * What the validation reports for the destination: a first address line of 1 to 35
   * characters, a present second line of at most 35, and a postcode, state, city and country.
   */
  lemma DestinationRules(req: CreateOrderRequest)
    ensures req.Reports(StreetAddress1Tag) ==
      if req.streetAddress1 == "" then Some(StreetAddress1Required)
      else if |req.streetAddress1| > 35 then Some(StreetAddress1TooLong) else None
    ensures req.Reports(StreetAddress2Tag) ==
      if req.streetAddress2.valid && |req.streetAddress2.s| > 35 then Some(StreetAddress2TooLong) else None
    ensures req.Reports(PostcodeTag) == if req.postcode == "" then Some(PostcodeRequired) else None
    ensures req.Reports(StateTag) == if req.state == "" then Some(StateRequired) else None
    ensures req.Reports(CityTag) == if req.city == "" then Some(CityRequired) else None
    ensures req.Reports(CountryTag) == if req.country == "" then Some(CountryRequired) else None
  {
    CreateOrderTagsDistinct(req);
    ReportedAt(req.Fields(), 5);
    ReportedAt(req.Fields(), 6);
    ReportedAt(req.Fields(), 7);
    ReportedAt(req.Fields(), 8);
    ReportedAt(req.Fields(), 9);
    ReportedAt(req.Fields(), 10);
    RequiredThenLength(req.streetAddress1, 1, 35, StreetAddress1Required, StreetAddress1TooLong);
    GuardedLength(Nullable(req.streetAddress2), req.streetAddress2.valid, 35, StreetAddress2TooLong);
    RequiredOnly(Str(req.postcode), PostcodeRequired);
    RequiredOnly(Str(req.state), StateRequired);
    RequiredOnly(Str(req.city), CityRequired);
    RequiredOnly(Str(req.country), CountryRequired);
  }

  /**
   * What the validation reports for the parcel and the shipper: a present signature service must
   * be one on offer, a set weight unit type one of the two, and the shipper address by value
   * is never reported.
   */
  lemma ParcelAndShipperRules(req: CreateOrderRequest)
    ensures req.Reports(SignatureServiceTag) ==
      if req.signatureService.valid && req.signatureService.s != "" && Str(req.signatureService.s) !in SignatureServices
      then Some(SignatureServiceInvalid) else None
    ensures req.Reports(WeightUnitTypeTag) ==
      if req.weightUnitType != 0 && Int(req.weightUnitType) !in WeightUnitTypes then Some(WeightUnitTypeInvalid) else None
    ensures req.Reports(BoxListTag) == if req.boxes == 0 then Some(BoxListRequired) else None
    ensures req.Reports(ShipperAddressTag) == None
    ensures req.Reports(ShipperCodeTag) == if req.shipperCode == "" then Some(ShipperCodeRequired) else None
  {
    CreateOrderTagsDistinct(req);
    ReportedAt(req.Fields(), 12);
    ReportedAt(req.Fields(), 13);
    ReportedAt(req.Fields(), 14);
    ReportedAt(req.Fields(), 15);
    ReportedAt(req.Fields(), 16);
    GuardedIn(Nullable(req.signatureService), req.signatureService.valid, SignatureServices, SignatureServiceInvalid);
    GuardedIn(Int(req.weightUnitType), true, WeightUnitTypes, WeightUnitTypeInvalid);
    RequiredOnly(Slice(req.boxes), BoxListRequired);
    RequiredOnly(Struct, ShipperAddressRequired);
    RequiredOnly(Str(req.shipperCode), ShipperCodeRequired);
  }

  /** The fields of an order have distinct names. */
  lemma CreateOrderTagsDistinct(req: CreateOrderRequest)
    ensures DistinctTags(req.Fields())
  {
  }

  /**
   * The recipient rule as written measures bytes: a name of twelve CJK characters, well within
   * the 3 ~ 35 characters its message promises, is 36 bytes long and is turned down.
   */
  lemma LongNameRejectedAsWritten(name: string)
    requires |name| == 12 && forall k :: 0 <= k < |name| ==> 0x800 <= name[k] as int < 0x1_0000
    ensures LengthAsWritten(Str(name), 3, 35, FirstnameLength) == Some(FirstnameLength)
    ensures Check(Str(name), [Length(3, 35, FirstnameLength)]) == None
  {
    ByteLengthOfWide(name);
  }

  /**
   * Conversely, a name of two CJK characters, shorter than the three characters asked for, is
   * six bytes long and gets through the rule as written.
   */
  lemma ShortNameAcceptedAsWritten(name: string)
    requires |name| == 2 && forall k :: 0 <= k < |name| ==> 0x800 <= name[k] as int < 0x1_0000
    ensures LengthAsWritten(Str(name), 3, 35, FirstnameLength) == None
    ensures Check(Str(name), [Length(3, 35, FirstnameLength)]) == Some(FirstnameLength)
  {
  }

  /**
   * The whole validator as written turns down an order that is acceptable when lengths are
   * counted in characters, only because its recipient name is twelve CJK characters long; the
   * rejection names `oa_firstname` with the 3-to-35 message.
   */
  lemma LongNameOrderRejectedAsWritten(req: CreateOrderRequest)
    requires req.Acceptable()
    requires |req.firstname| == 12 && forall k :: 0 <= k < |req.firstname| ==> 0x800 <= req.firstname[k] as int < 0x1_0000
    ensures req.Validate().None?
    ensures Reported(Violations(FieldsAsWritten(req.Fields())), FirstnameTag) == Some(FirstnameLength)
    ensures req.ValidateAsWritten().Some?
  {
    CreateOrderValidIff(req);
    CreateOrderTagsDistinct(req);
    var fs := req.Fields();
    FieldsAsWrittenTags(fs);
    LongNameRejectedAsWritten(req.firstname);
    var rules := [Required(FirstnameRequired), Length(3, 35, FirstnameLength)];
    assert rules[1..][1..] == [];
    assert RulesAsWritten(rules[1..]) == [LengthInBytes(3, 35, FirstnameLength)];
    assert RulesAsWritten(rules) == [Required(FirstnameRequired), LengthInBytes(3, 35, FirstnameLength)];
    assert FieldsAsWritten(fs)[3] == Field(FirstnameTag, Str(req.firstname), RulesAsWritten(rules));
    ReportedAt(FieldsAsWritten(fs), 3);
    assert Check(Str(req.firstname), [LengthInBytes(3, 35, FirstnameLength)]) == Some(FirstnameLength);
  }

  /** An order passes validation exactly when it is acceptable. */
  lemma CreateOrderValidIff(req: CreateOrderRequest)
    ensures req.Validate().None? <==> req.Acceptable()
  {
    OrderRules(req);
    RecipientRules(req);
    DestinationRules(req);
    ParcelAndShipperRules(req);
    if req.Acceptable() {
      var fs := req.Fields();
      forall i | 0 <= i < |fs|
        ensures Reported(Violations(fs), fs[i].tag).None?
      {
      }
      Unreported(fs);
    }
  }

  // ---------------------------------------------------------------------------------------
  // OrderQueryRequest
  // ---------------------------------------------------------------------------------------

  const TypeTag := "type"
  const DateFromTag := "date_from"
  const DateToTag := "date_to"
  const TypeInvalid := "类型参数错误"
  const DateFromInvalid := "开始时间格式错误"
  const DateToInvalid := "结束时间格式错误"

  /** Search by time, or by ticket. */
  const QueryTypes := [Int(1), Int(2)]

  /**
   * A search for orders. `dateTime` stands for the parser of Go's `time.DateTime` layout
   * ("2006-01-02 15:04:05"): it holds of the texts that parse.
   */
  datatype OrderQueryRequest = OrderQueryRequest(
    queryType: int,
    orderCode: string,
    referenceNo: string,
    dateFrom: string,
    dateTo: string)
  {
    /** The fields and rules of `OrderQueryRequest.validate`. */
    function Fields(dateTime: string -> bool): seq<Field>
    {
      [ Field(TypeTag, Int(queryType), [In(QueryTypes, TypeInvalid)]),
        Field(DateFromTag, Str(dateFrom), [When(dateFrom != "", [Date(dateTime, DateFromInvalid)])]),
        Field(DateToTag, Str(dateTo), [When(dateTo != "", [Date(dateTime, DateToInvalid)])]) ]
    }

    /** `OrderQueryRequest.validate`. */
    function Validate(dateTime: string -> bool): Option<Error>
    {
      ValidateStruct(Fields(dateTime))
    }

    /** The message the validation reports for `tag`, if any. */
    function Reports(dateTime: string -> bool, tag: string): Option<string>
    {
      Reported(Violations(Fields(dateTime)), tag)
    }
  }

  /**
   * The type must be one of the two when set (an unset type, 0, is not checked), and a date
   * is checked against the layout only when given.
   */
  lemma QueryRules(req: OrderQueryRequest, dateTime: string -> bool)
    ensures req.Reports(dateTime, TypeTag) ==
      if req.queryType != 0 && Int(req.queryType) !in QueryTypes then Some(TypeInvalid) else None
    ensures req.Reports(dateTime, DateFromTag) ==
      if req.dateFrom != "" && !dateTime(req.dateFrom) then Some(DateFromInvalid) else None
    ensures req.Reports(dateTime, DateToTag) ==
      if req.dateTo != "" && !dateTime(req.dateTo) then Some(DateToInvalid) else None
  {
    var fs := req.Fields(dateTime);
    assert DistinctTags(fs);
    ReportedAt(fs, 0);
    ReportedAt(fs, 1);
    ReportedAt(fs, 2);
    GuardedIn(Int(req.queryType), true, QueryTypes, TypeInvalid);
    GuardedDate(req.dateFrom, req.dateFrom != "", dateTime, DateFromInvalid);
    GuardedDate(req.dateTo, req.dateTo != "", dateTime, DateToInvalid);
  }

  /** A search passes validation exactly when its type is unset, 1 or 2 and its given dates parse. */
  lemma QueryValidIff(req: OrderQueryRequest, dateTime: string -> bool)
    ensures req.Validate(dateTime).None? <==>
      && (req.queryType == 0 || req.queryType == 1 || req.queryType == 2)
      && (req.dateFrom == "" || dateTime(req.dateFrom))
      && (req.dateTo == "" || dateTime(req.dateTo))
  {
    QueryRules(req, dateTime);
    var fs := req.Fields(dateTime);
    if && (req.queryType == 0 || req.queryType == 1 || req.queryType == 2)
       && (req.dateFrom == "" || dateTime(req.dateFrom))
       && (req.dateTo == "" || dateTime(req.dateTo))
    {
      forall i | 0 <= i < |fs|
        ensures Reported(Violations(fs), fs[i].tag).None?
      {
      }
      Unreported(fs);
    }
  }

  // ---------------------------------------------------------------------------------------
  // CancelOrderRequest
  // ---------------------------------------------------------------------------------------

  const OrderCodeTag := "order_code"
  const OrderCodeMissing := "订单号不能为空"
  const ReferenceMissing := "参考号不能为空"

  /** An order to cancel, named by its order code or by its reference number. */
  datatype CancelOrderRequest = CancelOrderRequest(orderCode: string, referenceNo: string)
  {
    /** The fields and rules of `CancelOrderRequest.validate`. */
    function Fields(): seq<Field>
    {
      EitherOf(OrderCodeTag, Str(orderCode), OrderCodeMissing, ReferenceNoTag, Str(referenceNo), ReferenceMissing)
    }

    /** `CancelOrderRequest.validate`. */
    function Validate(): Option<Error>
    {
      ValidateStruct(Fields())
    }
  }

  /** A cancellation passes validation exactly when it names the order one way or the other (or both). */
  lemma CancelValidIff(req: CancelOrderRequest)
    ensures req.Validate().None? <==> req.orderCode != "" || req.referenceNo != ""
  {
    EitherOfValidIff(OrderCodeTag, Str(req.orderCode), OrderCodeMissing, ReferenceNoTag, Str(req.referenceNo), ReferenceMissing);
  }

  /**
   * A cancellation naming nothing reports both fields, and invalidInput puts "order_code"
   * before "reference_no".
   */
  lemma CancelNamingNothing(req: CancelOrderRequest)
    requires req.orderCode == "" && req.referenceNo == ""
    ensures Violations(req.Fields()) == map[OrderCodeTag := OrderCodeMissing, ReferenceNoTag := ReferenceMissing]
    ensures Flatten(req.Validate()) == Some(Plain(OrderCodeMissing + "; " + ReferenceMissing))
  {
    EitherOfBothMissing(OrderCodeTag, Str(req.orderCode), OrderCodeMissing, ReferenceNoTag, Str(req.referenceNo), ReferenceMissing);
    assert Below(OrderCodeTag, ReferenceNoTag);
    FlattenTwoFields(req.Fields(), OrderCodeTag, ReferenceNoTag);
  }

  // ---------------------------------------------------------------------------------------
  // The services
  // ---------------------------------------------------------------------------------------

  /**
   * `orderService.Create`. An order that fails validation comes back as invalidInput's
   * flattened error and nothing is sent. Create posts without a result target, so the reply's
   * body is never decoded: the code recheckError sees stays 0, which counts as success, and
   * only the transport and the HTTP status can fail the call. (For the same reason the
   * CreateOrderResult it returns is never filled; the model returns none.)
   */
  method Create(req: CreateOrderRequest, response: Response) returns (err: Option<Error>, sent: bool)
    ensures sent <==> req.Validate().None?
    ensures !sent ==> err == Flatten(req.Validate()) && err.Some?
    ensures sent ==> err == RecheckError(response.(code := 0, message := ""))
    ensures sent ==> (err.None? <==> response.transport.None? && !IsHttpError(response.status))
  {
    var invalid := req.Validate();
    if invalid.Some? {
      FlattenRejection(req.Fields());
      err := InvalidInput(invalid);
      return err, false;
    }
    err := RecheckError(response.(code := 0, message := ""));
    sent := true;
  }

  /**
   * `orderService.Query`: a search that fails validation comes back as the flattened error
   * and nothing is sent; otherwise the transport error as it is, then recheckError, and the
   * decoded orders only when there is no error.
   */
  method Query<T>(req: OrderQueryRequest, dateTime: string -> bool, reply: Reply<T>)
    returns (orders: Option<T>, err: Option<Error>, sent: bool)
    ensures sent <==> req.Validate(dateTime).None?
    ensures !sent ==> err == Flatten(req.Validate(dateTime)) && err.Some?
    ensures sent ==> err == TransportFirst(reply.response)
    ensures orders.Some? <==> sent && err.None?
    ensures orders.Some? ==> orders.value == reply.result
  {
    var invalid := req.Validate(dateTime);
    if invalid.Some? {
      FlattenRejection(req.Fields(dateTime));
      err := InvalidInput(invalid);
      return None, err, false;
    }
    sent := true;
    err := TransportFirst(reply.response);
    orders := if err.None? then Some(reply.result) else None;
  }

  /**
   * `orderService.Cancel`: the same guard and checks as Query; the decoded result lists the
   * cancelled orders.
   */
  method Cancel<T>(req: CancelOrderRequest, reply: Reply<T>) returns (cancelled: Option<T>, err: Option<Error>, sent: bool)
    ensures sent <==> req.orderCode != "" || req.referenceNo != ""
    ensures !sent ==> err == Some(Plain(OrderCodeMissing + "; " + ReferenceMissing))
    ensures sent ==> err == TransportFirst(reply.response)
    ensures cancelled.Some? <==> sent && err.None?
    ensures cancelled.Some? ==> cancelled.value == reply.result
  {
    CancelValidIff(req);
    var invalid := req.Validate();
    if invalid.Some? {
      CancelNamingNothing(req);
      err := InvalidInput(invalid);
      return None, err, false;
    }
    sent := true;
    err := TransportFirst(reply.response);
    cancelled := if err.None? then Some(reply.result) else None;
  }
}
