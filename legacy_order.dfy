/**
 * The older order service of order.go: its `CreateOrderRequest`, which only requires nine
 * fields to be filled in (and the boxes when the order has several), and its Create, which
 * hands back the validation error as it is and reads the reply without recheckError.
 */
module LegacyOrder {
  import opened Wrappers
  import opened Validation
  import opened Client

  const ReferenceNoTag := "reference_no"
  const SmCodeTag := "sm_code"
  const FirstnameTag := "oa_firstname"
  const StreetAddress1Tag := "oa_street_address1"
  const PostcodeTag := "oa_postcode"
  const StateTag := "oa_state"
  const CityTag := "oa_city"
  const CountryTag := "oa_country"
  const TelephoneTag := "oa_telphone"
  const BoxListTag := "box_list"

  const ReferenceNoRequired := "订单参考号不能为空"
  const SmCodeRequired := "物流产品代码不能为空"
  const FirstnameRequired := "收件人不能为空"
  const StreetAddress1Required := "收件人地址 1 不能为空"
  const PostcodeRequired := "收件人邮编不能为空"
  const StateRequired := "收件人州/省不能为空"
  const CityRequired := "收件人城市不能为空"
  const CountryRequired := "收件人国家（国家二字码）不能为空"
  const TelephoneRequired := "收件人电话不能为空"
  const BoxListRequired := "箱子数据不能为空"

  /**
   * An order of order.go. The declared value, the weight and the dimensions are floats that
   * no rule looks at, and are left out; the boxes are known by their number.
   */
  datatype CreateOrderRequest = CreateOrderRequest(
    referenceNo: string,
    smCode: string,
    remark: string,
    callbackUrl: string,
    poCode: string,
    vatCode: string,
    parcelQuantity: int,
    firstname: string,
    company: string,
    streetAddress1: string,
    streetAddress2: string,
    streetAddress3: string,
    postcode: string,
    state: string,
    city: string,
    country: string,
    doorplate: string,
    telephone: string,
    isMoreBox: bool,
    boxes: nat)
  {
    /** The fields and rules of `CreateOrderRequest.Validate`. */
    function Fields(): seq<Field>
    {
      [ Field(ReferenceNoTag, Str(referenceNo), [Required(ReferenceNoRequired)]),
        Field(SmCodeTag, Str(smCode), [Required(SmCodeRequired)]),
        Field(FirstnameTag, Str(firstname), [Required(FirstnameRequired)]),
        Field(StreetAddress1Tag, Str(streetAddress1), [Required(StreetAddress1Required)]),
        Field(PostcodeTag, Str(postcode), [Required(PostcodeRequired)]),
        Field(StateTag, Str(state), [Required(StateRequired)]),
        Field(CityTag, Str(city), [Required(CityRequired)]),
        Field(CountryTag, Str(country), [Required(CountryRequired)]),
        Field(TelephoneTag, Str(telephone), [Required(TelephoneRequired)]),
        Field(BoxListTag, Slice(boxes), [When(isMoreBox, [Required(BoxListRequired)])]) ]
    }

    /** `CreateOrderRequest.Validate`. */
    function Validate(): Option<Error>
    {
      ValidateStruct(Fields())
    }

    /** The message the validation reports for `tag`, if any. */
    function Reports(tag: string): Option<string>
    {
      Reported(Violations(Fields()), tag)
    }

    /** The nine required texts are all filled in. */
    predicate Filled()
    {
      && referenceNo != "" && smCode != "" && firstname != "" && streetAddress1 != ""
      && postcode != "" && state != "" && city != "" && country != "" && telephone != ""
    }
  }

  /** The fields of an order have distinct names. */
  lemma LegacyTagsDistinct(req: CreateOrderRequest)
    ensures DistinctTags(req.Fields())
  {
  }

  /** The order's and recipient's required fields each report their own message when empty, whatever their length. */
  lemma RecipientRequired(req: CreateOrderRequest)
    ensures req.Reports(ReferenceNoTag) == if req.referenceNo == "" then Some(ReferenceNoRequired) else None
    ensures req.Reports(SmCodeTag) == if req.smCode == "" then Some(SmCodeRequired) else None
    ensures req.Reports(FirstnameTag) == if req.firstname == "" then Some(FirstnameRequired) else None
    ensures req.Reports(TelephoneTag) == if req.telephone == "" then Some(TelephoneRequired) else None
  {
    LegacyTagsDistinct(req);
    ReportedAt(req.Fields(), 0);
    ReportedAt(req.Fields(), 1);
    ReportedAt(req.Fields(), 2);
    ReportedAt(req.Fields(), 8);
    RequiredOnly(Str(req.referenceNo), ReferenceNoRequired);
    RequiredOnly(Str(req.smCode), SmCodeRequired);
    RequiredOnly(Str(req.firstname), FirstnameRequired);
    RequiredOnly(Str(req.telephone), TelephoneRequired);
  }

  /**
   * The destination's required fields each report their own message when empty, and the
   * boxes are required only for an order of several boxes.
   */
  lemma DestinationRequired(req: CreateOrderRequest)
    ensures req.Reports(StreetAddress1Tag) == if req.streetAddress1 == "" then Some(StreetAddress1Required) else None
    ensures req.Reports(PostcodeTag) == if req.postcode == "" then Some(PostcodeRequired) else None
    ensures req.Reports(StateTag) == if req.state == "" then Some(StateRequired) else None
    ensures req.Reports(CityTag) == if req.city == "" then Some(CityRequired) else None
    ensures req.Reports(CountryTag) == if req.country == "" then Some(CountryRequired) else None
    ensures req.Reports(BoxListTag) == if req.isMoreBox && req.boxes == 0 then Some(BoxListRequired) else None
  {
    LegacyTagsDistinct(req);
    ReportedAt(req.Fields(), 3);
    ReportedAt(req.Fields(), 4);
    ReportedAt(req.Fields(), 5);
    ReportedAt(req.Fields(), 6);
    ReportedAt(req.Fields(), 7);
    ReportedAt(req.Fields(), 9);
    RequiredOnly(Str(req.streetAddress1), StreetAddress1Required);
    RequiredOnly(Str(req.postcode), PostcodeRequired);
    RequiredOnly(Str(req.state), StateRequired);
    RequiredOnly(Str(req.city), CityRequired);
    RequiredOnly(Str(req.country), CountryRequired);
    GuardedRequired(Slice(req.boxes), req.isMoreBox, BoxListRequired);
  }

  /** An order passes validation exactly when the nine texts are filled in and, if it has several boxes, the boxes are given. */
  lemma LegacyValidIff(req: CreateOrderRequest)
    ensures req.Validate().None? <==> req.Filled() && (req.isMoreBox ==> req.boxes > 0)
  {
    RecipientRequired(req);
    DestinationRequired(req);
    if req.Filled() && (req.isMoreBox ==> req.boxes > 0) {
      var fs := req.Fields();
      forall i | 0 <= i < |fs|
        ensures Reported(Violations(fs), fs[i].tag).None?
      {
      }
      Unreported(fs);
    }
  }

  /** The remark, callback address, PO and VAT codes and the other unlisted fields never change the outcome. */
  lemma UnlistedFieldsIgnored(req: CreateOrderRequest, other: CreateOrderRequest)
    requires other.referenceNo == req.referenceNo && other.smCode == req.smCode && other.firstname == req.firstname
    requires other.streetAddress1 == req.streetAddress1 && other.postcode == req.postcode && other.state == req.state
    requires other.city == req.city && other.country == req.country && other.telephone == req.telephone
    requires other.isMoreBox == req.isMoreBox && other.boxes == req.boxes
    ensures other.Validate() == req.Validate()
  {
    assert other.Fields() == req.Fields();
  }

  /** How the reply's body decodes: into the result, or not at all, with the decoder's error text. */
  datatype Decoded<T> = Decoded(value: T) | Undecodable(text: string)

  /**
   * order.go's `Create`. An order that fails validation comes back as the validation map
   * itself, not flattened, and nothing is sent. Otherwise a transport error comes back as it
   * is; else the body is decoded, and the result is filled only when that succeeds. Neither
   * the HTTP status nor the body's code is looked at.
   */
  method Create<T>(req: CreateOrderRequest, transport: Option<TransportError>, body: Decoded<T>)
    returns (created: Option<T>, err: Option<Error>, sent: bool)
    ensures sent <==> req.Validate().None?
    ensures !sent ==> err == req.Validate() && err.Some? && err.value.Fields? && created.None?
    ensures sent && transport.Some? ==> err == Some(Plain(transport.value.text)) && created.None?
    ensures sent && transport.None? && body.Decoded? ==> err.None? && created == Some(body.value)
    ensures sent && transport.None? && body.Undecodable? ==> err == Some(Plain(body.text)) && created.None?
  {
    err := req.Validate();
    if err.Some? {
      return None, err, false;
    }
    sent := true;
    if transport.Some? {
      return None, Some(Plain(transport.value.text)), sent;
    }
    match body
    case Decoded(value) =>
      created := Some(value);
    case Undecodable(text) =>
      created, err := None, Some(Plain(text));
  }
}
