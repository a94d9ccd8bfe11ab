/** The Google Pay request objects of the page script (script.js:22-83) and
    the answer its payment-authorization callback gives (script.js:97-113).
    JavaScript objects are modelled as values: an object literal is a map
    from property names to values, `Object.assign` is map override, and a
    property assignment on a fresh copy is a map update. Because these are
    values, the model says nothing about whether a builder changes the
    shared `baseRequest`. */
module PayRequests {
  import opened JsText

  datatype Json =
    | JInt(i: int)
    | JStr(s: string)
    | JArr(items: seq<Json>)
    | JObj(fields: map<string, Json>)

  type Object = map<string, Json>

  /** `Object.assign(target, source)`: every own property of `source` is
      copied onto `target`, overriding a property of the same name. */
  function Assign(target: Object, source: Object): (r: Object)
    ensures r.Keys == target.Keys + source.Keys
    ensures forall k :: k in source ==> r[k] == source[k]
    ensures forall k :: k in target && k !in source ==> r[k] == target[k]
  {
    target + source
  }

  const BaseRequest: Object := map["apiVersion" := JInt(2), "apiVersionMinor" := JInt(0)]

  const AllowedCardNetworks: Json := JArr([JStr("MASTERCARD"), JStr("VISA"), JStr("AMEX")])

  const AllowedCardAuthMethods: Json := JArr([JStr("PAN_ONLY"), JStr("CRYPTOGRAM_3DS")])

  const TokenizationSpecification: Json := JObj(map[
    "type" := JStr("PAYMENT_GATEWAY"),
    "parameters" := JObj(map[
      "gateway" := JStr("example"),
      "gatewayMerchantId" := JStr("exampleGatewayMerchantId")])])

  const BaseCardPaymentMethod: Object := map[
    "type" := JStr("CARD"),
    "parameters" := JObj(map[
      "allowedAuthMethods" := AllowedCardAuthMethods,
      "allowedCardNetworks" := AllowedCardNetworks])]

  /** The card method with the tokenization specification added
      (script.js:47-53). */
  const CardPaymentMethod: Object :=
    Assign(Assign(map[], BaseCardPaymentMethod),
           map["tokenizationSpecification" := TokenizationSpecification])

  const TransactionInfo: Json := JObj(map[
    "totalPriceStatus" := JStr("NOT_CURRENTLY_KNOWN"),
    "currencyCode" := JStr("USD")])

  const MerchantInfo: Json := JObj(map[
    "merchantName" := JStr("Mi Tienda"),
    "merchantId" := JStr("01234567890123456789")])

  /** `getGoogleIsReadyToPayRequest` (script.js:57-65). */
  function IsReadyToPayRequest(): Object {
    Assign(Assign(map[], BaseRequest),
           map["allowedPaymentMethods" := JArr([JObj(BaseCardPaymentMethod)])])
  }

  /** The readiness request holds the API version 2.0 and the card method
      without a tokenization specification, and nothing else. */
  lemma IsReadyToPayRequestShape()
    ensures var r := IsReadyToPayRequest();
      && r.Keys == {"apiVersion", "apiVersionMinor", "allowedPaymentMethods"}
      && r["apiVersion"] == JInt(2) && r["apiVersionMinor"] == JInt(0)
      && r["allowedPaymentMethods"] == JArr([JObj(BaseCardPaymentMethod)])
      && "tokenizationSpecification" !in BaseCardPaymentMethod
  {
  }

  /** `getGooglePaymentDataRequest` (script.js:67-83): a copy of the base
      request, then four property assignments on the copy. */
  function PaymentDataRequest(): Object {
    var request := Assign(map[], BaseRequest);
    var request := request["allowedPaymentMethods" := JArr([JObj(CardPaymentMethod)])];
    var request := request["transactionInfo" := TransactionInfo];
    var request := request["merchantInfo" := MerchantInfo];
    request["callbackIntents" := JArr([JStr("PAYMENT_AUTHORIZATION")])]
  }

  /** The payment-data request holds the API version 2.0, the card method
      with the tokenization specification, a transaction whose total is not
      yet known in US dollars, the merchant, and the single callback intent
      `PAYMENT_AUTHORIZATION`. */
  lemma PaymentDataRequestShape()
    ensures var r := PaymentDataRequest();
      && r.Keys == {"apiVersion", "apiVersionMinor", "allowedPaymentMethods",
                    "transactionInfo", "merchantInfo", "callbackIntents"}
      && r["apiVersion"] == JInt(2) && r["apiVersionMinor"] == JInt(0)
      && r["allowedPaymentMethods"] == JArr([JObj(CardPaymentMethod)])
      && "tokenizationSpecification" in CardPaymentMethod
      && r["transactionInfo"] == JObj(map[
           "totalPriceStatus" := JStr("NOT_CURRENTLY_KNOWN"), "currencyCode" := JStr("USD")])
      && r["merchantInfo"] == JObj(map[
           "merchantName" := JStr("Mi Tienda"), "merchantId" := JStr("01234567890123456789")])
      && r["callbackIntents"] == JArr([JStr("PAYMENT_AUTHORIZATION")])
  {
  }

  /** The two requests agree on the API version, and the payment-data
      request's only method is the readiness request's method extended by
      exactly the tokenization specification. */
  lemma RequestsAgree()
    ensures var ready := IsReadyToPayRequest(); var data := PaymentDataRequest();
      && ready["apiVersion"] == data["apiVersion"]
      && ready["apiVersionMinor"] == data["apiVersionMinor"]
      && ready["allowedPaymentMethods"] == JArr([JObj(BaseCardPaymentMethod)])
      && data["allowedPaymentMethods"] == JArr([JObj(
           BaseCardPaymentMethod["tokenizationSpecification" := TokenizationSpecification])])
  {
    IsReadyToPayRequestShape();
    PaymentDataRequestShape();
    assert CardPaymentMethod == BaseCardPaymentMethod["tokenizationSpecification" := TokenizationSpecification];
  }

  const AuthorizationSuccess: Json := JObj(map["transactionState" := JStr("SUCCESS")])

  const AuthorizationError: Json := JObj(map[
    "transactionState" := JStr("ERROR"),
    "error" := JObj(map[
      "intent" := JStr("PAYMENT_AUTHORIZATION"),
      "message" := JStr("Insufficient funds"),
      "reason" := JStr("PAYMENT_DATA_INVALID")])])

  /** How `onPaymentAuthorized`'s promise settles once `processPayment`'s
      promise has settled (script.js:97-113): it always resolves, with
      `SUCCESS` when processing succeeded and with the fixed error record
      otherwise. */
  function OnPaymentAuthorized(processed: Settlement<()>): (r: Settlement<Json>)
    ensures r.Resolved?
    ensures r.value.JObj? && "transactionState" in r.value.fields
    ensures r.value.fields["transactionState"] == JStr("SUCCESS") <==> processed.Resolved?
    ensures processed.Resolved? ==> r.value.fields.Keys == {"transactionState"}
    ensures processed.Rejected? ==>
      && r.value.fields["transactionState"] == JStr("ERROR")
      && "error" in r.value.fields && r.value.fields["error"].JObj?
      && "intent" in r.value.fields["error"].fields
      && r.value.fields["error"].fields["intent"] == JStr("PAYMENT_AUTHORIZATION")
      && "reason" in r.value.fields["error"].fields
      && r.value.fields["error"].fields["reason"] == JStr("PAYMENT_DATA_INVALID")
  {
    match processed
    case Resolved(_) => Resolved(AuthorizationSuccess)
    case Rejected => Resolved(AuthorizationError)
  }
}
