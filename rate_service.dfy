/**
 * The rate service of rate.service.go: the rules of `RateCalcRequest` and the service Calc,
 * which validates a request before it asks for a quote. The field names and the rule
 * messages are the order service's, but for the shipper, which here may be given either by
 * address or by code.
 */
module RateService {
  import opened Wrappers
  import opened GoStrings
  import opened Validation
  import opened Client
  import opened OrderService

  /** The message both shipper fields report when neither is given. */
  const ShipperMissing := "发件人信息和编码必须填写一个"

  /** `entity.ShipperAddress`: a shipper on record. Its fields carry no rules. */
  datatype ShipperAddress = ShipperAddress(
    shipperCode: string,
    shipperName: string,
    shipperCompany: string,
    shipperAddress1: string,
    shipperAddress2: string,
    shipperCountry: string,
    shipperStateProvince: string,
    shipperCity: string,
    shipperPostalCode: string,
    shipperTelPhone: string)

  /**
   * A shipment to quote. Unlike an order, its remark and company are plain strings, and
   * its shipper address is a pointer that may be nil. The boxes are known by their number.
   */
  datatype RateCalcRequest = RateCalcRequest(
    referenceNo: string,
    smCode: string,
    remark: string,
    firstname: string,
    company: string,
    telephone: string,
    country: string,
    state: string,
    city: string,
    postcode: string,
    streetAddress1: string,
    streetAddress2: NullString,
    isMoreBox: int,
    signatureService: NullString,
    pickUp: int,
    weightUnitType: int,
    boxes: nat,
    shipperAddress: Option<ShipperAddress>,
    shipperCode: string)
  {
    /** The fields and rules of `RateCalcRequest.Validate`. */
    function Fields(): seq<Field>
    {
      [ Field(ReferenceNoTag, Str(referenceNo), [Required(ReferenceNoRequired), Length(1, 35, ReferenceNoTooLong)]),
        Field(SmCodeTag, Str(smCode), [Required(SmCodeRequired)]),
        Field(RemarkTag, Str(remark), [When(remark != "", [Length(1, 35, RemarkTooLong)])]),
        Field(FirstnameTag, Str(firstname), [Required(FirstnameRequired), Length(3, 35, FirstnameLength)]),
        Field(CompanyTag, Str(company), [When(company != "", [Length(1, 35, CompanyTooLong)])]),
        Field(StreetAddress1Tag, Str(streetAddress1), [Required(StreetAddress1Required), Length(1, 35, StreetAddress1TooLong)]),
        Field(StreetAddress2Tag, Nullable(streetAddress2), [When(streetAddress2.valid, [Length(1, 35, StreetAddress2TooLong)])]),
        Field(PostcodeTag, Str(postcode), [Required(PostcodeRequired)]),
        Field(StateTag, Str(state), [Required(StateRequired)]),
        Field(CityTag, Str(city), [Required(CityRequired)]),
        Field(CountryTag, Str(country), [Required(CountryRequired)]),
        Field(TelephoneTag, Str(telephone), [Required(TelephoneRequired), Length(10, 15, TelephoneLength)]),
        Field(SignatureServiceTag, Nullable(signatureService),
              [When(signatureService.valid, [In(SignatureServices, SignatureServiceInvalid)])]),
        Field(WeightUnitTypeTag, Int(weightUnitType), [In(WeightUnitTypes, WeightUnitTypeInvalid)]),
        Field(BoxListTag, Slice(boxes), [Required(BoxListRequired)]) ]
      + EitherOf(ShipperAddressTag, Pointer(shipperAddress.None?), ShipperMissing, ShipperCodeTag, Str(shipperCode), ShipperMissing)
    }

    /** `RateCalcRequest.Validate`. */
    function Validate(): Option<Error>
    {
      ValidateStruct(Fields())
    }

    /** The message the validation reports for `tag`, if any. */
    function Reports(tag: string): Option<string>
    {
      Reported(Violations(Fields()), tag)
    }

    /** What a shipment must satisfy to be quoted, field by field, lengths counted in characters. */
    predicate Acceptable()
    {
      && 1 <= |referenceNo| <= 35
      && smCode != ""
      && |remark| <= 35
      && 3 <= |firstname| <= 35
      && |company| <= 35
      && 1 <= |streetAddress1| <= 35
      && (streetAddress2.valid ==> |streetAddress2.s| <= 35)
      && postcode != "" && state != "" && city != "" && country != ""
      && 10 <= |telephone| <= 15
      && (signatureService.valid && signatureService.s != "" ==> Str(signatureService.s) in SignatureServices)
      && (weightUnitType == 0 || Int(weightUnitType) in WeightUnitTypes)
      && boxes > 0
      && (shipperAddress.Some? || shipperCode != "")
    }
  }

  /** The fields of a shipment have distinct names. */
  lemma RateTagsDistinct(req: RateCalcRequest)
    ensures DistinctTags(req.Fields())
  {
  }

  /**
   * What validation reports for the shipment's own fields: a reference of 1 to 35
   * characters and a product code are required; a remark, when not empty, has at most 35.
   */
  lemma RateOrderRules(req: RateCalcRequest)
    ensures req.Reports(ReferenceNoTag) ==
      if req.referenceNo == "" then Some(ReferenceNoRequired)
      else if |req.referenceNo| > 35 then Some(ReferenceNoTooLong) else None
    ensures req.Reports(SmCodeTag) == if req.smCode == "" then Some(SmCodeRequired) else None
    ensures req.Reports(RemarkTag) == if |req.remark| > 35 then Some(RemarkTooLong) else None
  {
    RateTagsDistinct(req);
    ReportedAt(req.Fields(), 0);
    ReportedAt(req.Fields(), 1);
    ReportedAt(req.Fields(), 2);
    RequiredThenLength(req.referenceNo, 1, 35, ReferenceNoRequired, ReferenceNoTooLong);
    RequiredOnly(Str(req.smCode), SmCodeRequired);
    GuardedLength(Str(req.remark), req.remark != "", 35, RemarkTooLong);
  }

  /**
   * What validation reports for the recipient: a name of 3 to 35 characters, a company of at
   * most 35 when not empty, and a telephone of 10 to 15.
   */
  lemma RateRecipientRules(req: RateCalcRequest)
    ensures req.Reports(FirstnameTag) ==
      if req.firstname == "" then Some(FirstnameRequired)
      else if |req.firstname| < 3 || |req.firstname| > 35 then Some(FirstnameLength) else None
    ensures req.Reports(CompanyTag) == if |req.company| > 35 then Some(CompanyTooLong) else None
    ensures req.Reports(TelephoneTag) ==
      if req.telephone == "" then Some(TelephoneRequired)
      else if |req.telephone| < 10 || |req.telephone| > 15 then Some(TelephoneLength) else None
  {
    RateTagsDistinct(req);
    ReportedAt(req.Fields(), 3);
    ReportedAt(req.Fields(), 4);
    ReportedAt(req.Fields(), 11);
    RequiredThenLength(req.firstname, 3, 35, FirstnameRequired, FirstnameLength);
    GuardedLength(Str(req.company), req.company != "", 35, CompanyTooLong);
    RequiredThenLength(req.telephone, 10, 15, TelephoneRequired, TelephoneLength);
  }

  /**
   * What validation reports for the destination: a first address line of 1 to 35
   * characters, a second of at most 35 when present, and postcode, state, city and country.
   */
  lemma RateDestinationRules(req: RateCalcRequest)
    ensures req.Reports(StreetAddress1Tag) ==
      if req.streetAddress1 == "" then Some(StreetAddress1Required)
      else if |req.streetAddress1| > 35 then Some(StreetAddress1TooLong) else None
    ensures req.Reports(StreetAddress2Tag) ==
      if req.streetAddress2.valid && |req.streetAddress2.s| > 35 then Some(StreetAddress2TooLong) else None
    ensures req.Reports(PostcodeTag) == if req.postcode == "" then Some(PostcodeRequired) else None
    ensures req.Reports(StateTag) == if req.state == "" then Some(StateRequired) else None
    ensures req.Reports(CityTag) == if req.city == "" then Some(CityRequired) else None
    ensures req.Reports(CountryTag) == if req.country == "" then Some(CountryRequired) else None
  {
    RateTagsDistinct(req);
    ReportedAt(req.Fields(), 5);
    ReportedAt(req.Fields(), 6);
    ReportedAt(req.Fields(), 7);
    ReportedAt(req.Fields(), 8);
    ReportedAt(req.Fields(), 9);
    ReportedAt(req.Fields(), 10);
    RequiredThenLength(req.streetAddress1, 1, 35, StreetAddress1Required, StreetAddress1TooLong);
    GuardedLength(Nullable(req.streetAddress2), req.streetAddress2.valid, 35, StreetAddress2TooLong);
    RequiredOnly(Str(req.postcode), PostcodeRequired);
    RequiredOnly(Str(req.state), StateRequired);
    RequiredOnly(Str(req.city), CityRequired);
    RequiredOnly(Str(req.country), CountryRequired);
  }

  /**
   * What validation reports for the parcel: a present signature service must be one on
   * offer, a set weight unit type one of the two, and there must be boxes.
   */
  lemma RateParcelRules(req: RateCalcRequest)
    ensures req.Reports(SignatureServiceTag) ==
      if req.signatureService.valid && req.signatureService.s != "" && Str(req.signatureService.s) !in SignatureServices
      then Some(SignatureServiceInvalid) else None
    ensures req.Reports(WeightUnitTypeTag) ==
      if req.weightUnitType != 0 && Int(req.weightUnitType) !in WeightUnitTypes then Some(WeightUnitTypeInvalid) else None
    ensures req.Reports(BoxListTag) == if req.boxes == 0 then Some(BoxListRequired) else None
  {
    RateTagsDistinct(req);
    ReportedAt(req.Fields(), 12);
    ReportedAt(req.Fields(), 13);
    ReportedAt(req.Fields(), 14);
    GuardedIn(Nullable(req.signatureService), req.signatureService.valid, SignatureServices, SignatureServiceInvalid);
    GuardedIn(Int(req.weightUnitType), true, WeightUnitTypes, WeightUnitTypeInvalid);
    RequiredOnly(Slice(req.boxes), BoxListRequired);
  }

  /**
   * The shipper must be given by address or by code (both is fine); when neither is, both
   * fields report the same message.
   */
  lemma ShipperRules(req: RateCalcRequest)
    ensures req.Reports(ShipperAddressTag) ==
      if req.shipperAddress.None? && req.shipperCode == "" then Some(ShipperMissing) else None
    ensures req.Reports(ShipperCodeTag) ==
      if req.shipperAddress.None? && req.shipperCode == "" then Some(ShipperMissing) else None
  {
    RateTagsDistinct(req);
    ReportedAt(req.Fields(), 15);
    ReportedAt(req.Fields(), 16);
    GuardedRequired(Pointer(req.shipperAddress.None?), req.shipperCode == "", ShipperMissing);
    GuardedRequired(Str(req.shipperCode), req.shipperAddress.None?, ShipperMissing);
  }

  /** A shipment passes validation exactly when it is acceptable. */
  lemma RateValidIff(req: RateCalcRequest)
    ensures req.Validate().None? <==> req.Acceptable()
  {
    RateOrderRules(req);
    RateRecipientRules(req);
    RateDestinationRules(req);
    RateParcelRules(req);
    ShipperRules(req);
    if req.Acceptable() {
      var fs := req.Fields();
      forall i | 0 <= i < |fs|
        ensures Reported(Violations(fs), fs[i].tag).None?
      {
      }
      Unreported(fs);
    }
  }

  /**
   * `rateService.Calc`: a shipment that fails validation comes back as invalidInput's
   * flattened error and nothing is sent; otherwise recheckError decides, and the decoded
   * quote comes back only when there is no error.
   */
  method Calc<T>(req: RateCalcRequest, reply: Reply<T>) returns (quote: Option<T>, err: Option<Error>, sent: bool)
    ensures sent <==> req.Validate().None?
    ensures !sent ==> err == Flatten(req.Validate()) && err.Some?
    ensures sent ==> err == RecheckError(reply.response)
    ensures quote.Some? <==> sent && err.None?
    ensures quote.Some? ==> quote.value == reply.result
  {
    var invalid := req.Validate();
    if invalid.Some? {
      FlattenRejection(req.Fields());
      err := InvalidInput(invalid);
      return None, err, false;
    }
    sent := true;
    err := RecheckError(reply.response);
    quote := if err.None? then Some(reply.result) else None;
  }
}
