/**
 * The shipping-label service of shipping.label.service.go: a label is asked for by order
 * code or by reference number, and Detail validates the request before it sends it.
 */
module ShippingLabelService {
  import opened Wrappers
  import opened GoStrings
  import opened Validation
  import opened Client

  const OrderCodeTag := "order_code"
  const ReferenceNoTag := "reference_no"
  const OrderCodeMissing := "订单号不能为空"
  const ReferenceMissing := "参考号不能为空"

  /** The order whose label is wanted, named by its order code or by its reference number. */
  datatype ShippingLabelDetailRequest = ShippingLabelDetailRequest(orderCode: string, referenceNo: string)
  {
    /** The fields and rules of `ShippingLabelDetailRequest.validate`. */
    function Fields(): seq<Field>
    {
      EitherOf(OrderCodeTag, Str(orderCode), OrderCodeMissing, ReferenceNoTag, Str(referenceNo), ReferenceMissing)
    }

    /** `ShippingLabelDetailRequest.validate`. */
    function Validate(): Option<Error>
    {
      ValidateStruct(Fields())
    }
  }

  /** A request passes validation exactly when it names the order one way or the other; naming it both ways is fine. */
  lemma DetailValidIff(req: ShippingLabelDetailRequest)
    ensures req.Validate().None? <==> req.orderCode != "" || req.referenceNo != ""
  {
    EitherOfValidIff(OrderCodeTag, Str(req.orderCode), OrderCodeMissing, ReferenceNoTag, Str(req.referenceNo), ReferenceMissing);
  }

  /**
   * A request naming nothing reports both fields; flattened, the message of "order_code"
   * comes before that of "reference_no".
   */
  lemma DetailNamingNothing(req: ShippingLabelDetailRequest)
    requires req.orderCode == "" && req.referenceNo == ""
    ensures Violations(req.Fields()) == map[OrderCodeTag := OrderCodeMissing, ReferenceNoTag := ReferenceMissing]
    ensures Flatten(req.Validate()) == Some(Plain(OrderCodeMissing + "; " + ReferenceMissing))
  {
    EitherOfBothMissing(OrderCodeTag, Str(req.orderCode), OrderCodeMissing, ReferenceNoTag, Str(req.referenceNo), ReferenceMissing);
    assert Below(OrderCodeTag, ReferenceNoTag);
    FlattenTwoFields(req.Fields(), OrderCodeTag, ReferenceNoTag);
  }

  /**
   * `shippingLabelService.Detail`: a request naming nothing comes back as the two messages
   * and nothing is sent; otherwise the transport error as it is, then recheckError, and the
   * decoded label only when there is no error.
   */
  method Detail<T>(req: ShippingLabelDetailRequest, reply: Reply<T>) returns (detail: Option<T>, err: Option<Error>, sent: bool)
    ensures sent <==> req.orderCode != "" || req.referenceNo != ""
    ensures !sent ==> err == Some(Plain(OrderCodeMissing + "; " + ReferenceMissing))
    ensures sent ==> err == TransportFirst(reply.response)
    ensures detail.Some? <==> sent && err.None?
    ensures detail.Some? ==> detail.value == reply.result
  {
    DetailValidIff(req);
    var invalid := req.Validate();
    if invalid.Some? {
      DetailNamingNothing(req);
      err := InvalidInput(invalid);
      return None, err, false;
    }
    sent := true;
    err := TransportFirst(reply.response);
    detail := if err.None? then Some(reply.result) else None;
  }
}
