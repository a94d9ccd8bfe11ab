/** The stateful part of the page script: the submit handler
    (script.js:166-215), the success modal (script.js:218-229), the lazily
    created Google Pay client (script.js:55, 85-95) and the callbacks that
    reach it (script.js:116-155). Each event handler runs to completion as
    one method; the wallet's answer to `loadPaymentData` is a parameter. */
module PaymentPage {
  import opened JsText
  import CardFormat
  import PayRequests

  /** How `paymentsClient.loadPaymentData(request)` turned out: its promise
      resolved, its promise rejected (the user closed the sheet, or an error),
      or the call threw before returning a promise. */
  datatype WalletOutcome = Resolve | Reject | Throw

  /** What the page does that is seen outside its own fields: alerts, writes
      to the submit button's `disabled` property, showing the success modal,
      and the calls it makes into the Google Pay client. */
  datatype Effect =
    | Alert(message: string)
    | SetButtonDisabled(disabled: bool)
    | ShowSuccessModal
    | IsReadyToPay(request: PayRequests.Object)
    | CreateGooglePayButton(allowedPaymentMethods: PayRequests.Json)
    | LoadPaymentData(request: PayRequests.Object)

  /** The `createButton` call of `addGooglePayButton` (script.js:131-134),
      which offers the card method without a tokenization specification. */
  const CreateButton: Effect := CreateGooglePayButton(PayRequests.JArr([PayRequests.JObj(PayRequests.BaseCardPaymentMethod)]))

  const InvalidCardMessage: string := "El número de tarjeta no es válido"

  const WalletErrorMessage: string :=
    "Error al activar Google Pay. Por favor, asegúrate de estar en un dispositivo compatible."

  /** The submit handler's gate (script.js:170-177): the card number with its
      whitespace removed is either empty or 13 to 19 characters long. The
      expiry plays no part. */
  predicate CardNumberPasses(cardNumber: string) {
    var digits := Remove(cardNumber, IsWhiteSpace);
    !(digits != "" && (|digits| < 13 || |digits| > 19))
  }

  function Count(effects: seq<Effect>, e: Effect): nat {
    if effects == [] then 0
    else (if effects[0] == e then 1 else 0) + Count(effects[1..], e)
  }

  function WalletCalls(effects: seq<Effect>): nat {
    if effects == [] then 0
    else (if effects[0].LoadPaymentData? then 1 else 0) + WalletCalls(effects[1..])
  }

  lemma {:induction false} CountAppend(a: seq<Effect>, b: seq<Effect>, e: Effect)
    ensures Count(a + b, e) == Count(a, e) + Count(b, e)
    ensures WalletCalls(a + b) == WalletCalls(a) + WalletCalls(b)
  {
    if a == [] {
      assert a + b == b;
    } else {
      assert (a + b)[1..] == a[1..] + b;
      CountAppend(a[1..], b, e);
    }
  }

  /** The button's `disabled` property after `effects`, starting from
      `start`: the last value written, or `start` if none was. */
  function DisabledAfter(start: bool, effects: seq<Effect>): bool
    decreases |effects|
  {
    if effects == [] then start
    else DisabledAfter(if effects[0].SetButtonDisabled? then effects[0].disabled else start, effects[1..])
  }

  lemma {:induction false} DisabledAfterAppend(start: bool, a: seq<Effect>, b: seq<Effect>)
    ensures DisabledAfter(start, a + b) == DisabledAfter(DisabledAfter(start, a), b)
    decreases |a|
  {
    if a == [] {
      assert a + b == b;
    } else {
      assert (a + b)[1..] == a[1..] + b;
      DisabledAfterAppend(if a[0].SetButtonDisabled? then a[0].disabled else start, a[1..], b);
    }
  }

  lemma CountSingle(x: Effect, e: Effect)
    ensures Count([x], e) == if x == e then 1 else 0
    ensures WalletCalls([x]) == if x.LoadPaymentData? then 1 else 0
  {
    assert [x][1..] == [];
  }

  lemma {:induction false} CountAbsent(m: seq<Effect>, e: Effect)
    requires e !in m
    ensures Count(m, e) == 0
  {
    if m != [] {
      assert m[0] != e;
      assert e !in m[1..] by {
        forall k | 0 <= k < |m[1..]| ensures m[1..][k] != e {
          assert m[1..][k] == m[k + 1];
        }
      }
      CountAbsent(m[1..], e);
    }
  }

  /** What happens between disabling and re-enabling the button in an
      accepted submit: the `catch` for a client that cannot be built, or the
      wallet call followed by its outcome's handling. */
  function WalletPhase(walletReachable: bool, outcome: WalletOutcome): seq<Effect> {
    if !walletReachable then [Alert(WalletErrorMessage)]
    else
      [LoadPaymentData(PayRequests.PaymentDataRequest())] +
      match outcome
      case Resolve => [ShowSuccessModal]
      case Reject => []
      case Throw => [Alert(WalletErrorMessage)]
  }

  /** The wallet phase never writes the button, shows the modal exactly when
      the wallet is reachable and its call resolves, alerts exactly when the
      client cannot be built or the call throws, and calls the wallet once,
      first, with the payment-data request, when the client is reachable. */
  lemma WalletPhaseFacts(walletReachable: bool, outcome: WalletOutcome)
    ensures var m := WalletPhase(walletReachable, outcome);
      && (forall k :: 0 <= k < |m| ==> !m[k].SetButtonDisabled?)
      && (ShowSuccessModal in m <==> walletReachable && outcome == Resolve)
      && (Alert(WalletErrorMessage) in m <==> !walletReachable || outcome == Throw)
      && WalletCalls(m) == (if walletReachable then 1 else 0)
      && (forall k :: 0 <= k < |m| && m[k].LoadPaymentData? ==>
            k == 0 && m[k].request == PayRequests.PaymentDataRequest())
  {
    if !walletReachable {
      CountSingle(Alert(WalletErrorMessage), Alert(WalletErrorMessage));
    } else {
      var call := LoadPaymentData(PayRequests.PaymentDataRequest());
      var settle := match outcome
        case Resolve => [ShowSuccessModal]
        case Reject => []
        case Throw => [Alert(WalletErrorMessage)];
      assert WalletPhase(walletReachable, outcome) == [call] + settle;
      CountSingle(call, call);
      assert WalletCalls(settle) == 0 by {
        if settle != [] { CountSingle(settle[0], call); }
      }
      CountAppend([call], settle, call);
    }
  }

  /** The effects of one submit (script.js:166-215). `walletReachable` says
      whether `getGooglePaymentsClient` returns a client: one exists already,
      or the Google Pay script has defined `google` so that one can be built;
      otherwise the constructor throws and the handler's `catch` runs. */
  function SubmitEffects(cardNumber: string, walletReachable: bool, outcome: WalletOutcome): seq<Effect> {
    if !CardNumberPasses(cardNumber) then [Alert(InvalidCardMessage)]
    else [SetButtonDisabled(true)] + WalletPhase(walletReachable, outcome) + [SetButtonDisabled(false)]
  }

  /** A refused submit only alerts. An accepted one writes `disabled = true`
      first and `disabled = false` last, once each; shows the modal exactly
      when the wallet resolves; alerts exactly when the client cannot be built
      or the wallet call throws; and calls the wallet at most once, right
      after disabling the button, with the payment-data request. */
  lemma SubmitEffectsFacts(cardNumber: string, walletReachable: bool, outcome: WalletOutcome)
    ensures var r := SubmitEffects(cardNumber, walletReachable, outcome);
      var passes := CardNumberPasses(cardNumber);
      && (!passes ==> r == [Alert(InvalidCardMessage)])
      && (passes ==> |r| >= 3 && r[0] == SetButtonDisabled(true) && r[|r| - 1] == SetButtonDisabled(false))
      && Count(r, SetButtonDisabled(true)) == (if passes then 1 else 0)
      && Count(r, SetButtonDisabled(false)) == (if passes then 1 else 0)
      && (ShowSuccessModal in r <==> passes && walletReachable && outcome == Resolve)
      && (Alert(WalletErrorMessage) in r <==> passes && (!walletReachable || outcome == Throw))
      && WalletCalls(r) == (if passes && walletReachable then 1 else 0)
      && (forall k :: 0 <= k < |r| && r[k].LoadPaymentData? ==>
            k == 1 && r[k].request == PayRequests.PaymentDataRequest())
  {
    var r := SubmitEffects(cardNumber, walletReachable, outcome);
    if !CardNumberPasses(cardNumber) {
      CountSingle(r[0], SetButtonDisabled(true));
      CountSingle(r[0], SetButtonDisabled(false));
    } else {
      var m := WalletPhase(walletReachable, outcome);
      WalletPhaseFacts(walletReachable, outcome);
      var on, off := SetButtonDisabled(true), SetButtonDisabled(false);
      assert on !in m && off !in m;
      CountAbsent(m, on);
      CountAbsent(m, off);
      CountSingle(on, on); CountSingle(on, off);
      CountSingle(off, on); CountSingle(off, off);
      CountAppend([on], m, on); CountAppend([on] + m, [off], on);
      CountAppend([on], m, off); CountAppend([on] + m, [off], off);
      assert r == [on] + m + [off];
      assert forall k :: 1 <= k < |r| - 1 ==> r[k] == m[k - 1];
    }
  }

  lemma Regroup(a: seq<Effect>, x: Effect, m: seq<Effect>, y: Effect)
    ensures a + [x] + m + [y] == a + ([x] + m + [y])
  {
  }

  /** Button consistency across a submit: the wallet is called only while
      the button is disabled, and afterwards the button is enabled again
      when the submit was accepted and untouched when it was refused. */
  lemma ButtonConsistency(start: bool, cardNumber: string, walletReachable: bool, outcome: WalletOutcome)
    ensures var r := SubmitEffects(cardNumber, walletReachable, outcome);
      && (forall k :: 0 <= k < |r| && r[k].LoadPaymentData? ==> DisabledAfter(start, r[..k]))
      && DisabledAfter(start, r) == if CardNumberPasses(cardNumber) then false else start
  {
    var r := SubmitEffects(cardNumber, walletReachable, outcome);
    SubmitEffectsFacts(cardNumber, walletReachable, outcome);
    if CardNumberPasses(cardNumber) {
      var init := r[..|r| - 1];
      assert r == init + [SetButtonDisabled(false)];
      DisabledAfterAppend(start, init, [SetButtonDisabled(false)]);
      assert [SetButtonDisabled(false)][1..] == [];
      forall k | 0 <= k < |r| && r[k].LoadPaymentData? ensures DisabledAfter(start, r[..k]) {
        assert r[..1] == [SetButtonDisabled(true)];
        assert [SetButtonDisabled(true)][1..] == [];
      }
    } else {
      assert r[1..] == [];
    }
  }

  /** Appending a submit's effects keeps the button's recorded state
      enabled. */
  lemma SubmitLeavesButtonEnabled(before: seq<Effect>, cardNumber: string, walletReachable: bool, outcome: WalletOutcome)
    requires !DisabledAfter(false, before)
    ensures !DisabledAfter(false, before + SubmitEffects(cardNumber, walletReachable, outcome))
  {
    ButtonConsistency(false, cardNumber, walletReachable, outcome);
    DisabledAfterAppend(false, before, SubmitEffects(cardNumber, walletReachable, outcome));
  }

  /** An effect that does not write the button leaves its state alone. */
  lemma OtherEffectKeepsButton(before: seq<Effect>, e: Effect)
    requires !e.SetButtonDisabled?
    ensures DisabledAfter(false, before + [e]) == DisabledAfter(false, before)
  {
    DisabledAfterAppend(false, before, [e]);
    assert [e][1..] == [];
  }

  /** A Google Pay `PaymentsClient`, as configured by the page: test
      environment, with `onPaymentAuthorized` as its only data callback. */
  class PaymentsClient {
    const environment: string
    const paymentDataCallbacks: set<string>

    constructor ()
      ensures environment == "TEST"
      ensures paymentDataCallbacks == {"onPaymentAuthorized"}
    {
      environment := "TEST";
      paymentDataCallbacks := {"onPaymentAuthorized"};
    }
  }

  class Page {
    /** The values of the card-number and expiry inputs. */
    var cardNumber: string
    var expiry: string
    /** `submitButton.disabled`. */
    var buttonDisabled: bool
    /** Whether the success modal has the `active` class. */
    var modalActive: bool
    /** Whether the Google Pay script has loaded and defined `google`. */
    var apiLoaded: bool
    /** The module-level `paymentsClient` (null until first needed). */
    var client: PaymentsClient?
    /** How many clients have been constructed. */
    var clientsConstructed: nat
    /** Whether the Google Pay button has been added to the page. */
    var payButtonAdded: bool
    /** Everything the page has done that is seen from outside, in order. */
    var effects: seq<Effect>

    /** At most one client is ever built, only once the script has loaded,
        and it stays the module's client. */
    ghost predicate ClientValid()
      reads this
    {
      && clientsConstructed <= 1
      && (client == null <==> clientsConstructed == 0)
      && (client != null ==> apiLoaded && client.environment == "TEST")
      && (payButtonAdded ==> client != null)
    }

    /** Between events the button is enabled, and its state is the one the
        recorded writes leave it in. */
    ghost predicate Valid()
      reads this
    {
      && ClientValid()
      && !buttonDisabled
      && buttonDisabled == DisabledAfter(false, effects)
    }

    /** The page as loaded: empty inputs, enabled button, hidden modal, no
        client yet. */
    constructor ()
      ensures Valid()
      ensures cardNumber == "" && expiry == ""
      ensures !modalActive && !apiLoaded && client == null && !payButtonAdded
      ensures effects == []
    {
      cardNumber, expiry := "", "";
      buttonDisabled, modalActive := false, false;
      apiLoaded, client, clientsConstructed := false, null, 0;
      payButtonAdded := false;
      effects := [];
    }

    /** The card-number `input` handler (script.js:5-9). */
    method OnCardNumberInput(raw: string)
      modifies this`cardNumber
      ensures cardNumber == CardFormat.FormatCardNumber(raw)
    {
      cardNumber := CardFormat.FormatCardNumber(raw);
    }

    /** The expiry `input` handler (script.js:13-19). */
    method OnExpiryInput(raw: string)
      modifies this`expiry
      ensures expiry == CardFormat.FormatExpiry(raw)
    {
      expiry := CardFormat.FormatExpiry(raw);
    }

    /** `getGooglePaymentsClient` (script.js:85-95): builds the client the
        first time, and returns the same one ever after. `None` stands for
        the exception the constructor throws while `google` is undefined. */
    method GetPaymentsClient() returns (c: Option<PaymentsClient>)
      requires ClientValid()
      modifies this`client, this`clientsConstructed
      ensures ClientValid()
      ensures old(client) != null ==>
        c == Some(old(client)) && client == old(client) && clientsConstructed == old(clientsConstructed)
      ensures old(client) == null && apiLoaded ==>
        c.Some? && fresh(c.value) && client == c.value && clientsConstructed == 1
      ensures old(client) == null && !apiLoaded ==> c == None && client == null && clientsConstructed == 0
      ensures c.Some? ==> c.value.environment == "TEST" && c.value == client
    {
      if client == null {
        if !apiLoaded {
          return None;
        }
        client := new PaymentsClient();
        clientsConstructed := clientsConstructed + 1;
      }
      return Some(client);
    }

    /** `showSuccessModal` (script.js:218-221). */
    method ShowModal()
      modifies this`modalActive, this`effects
      ensures modalActive
      ensures effects == old(effects) + [ShowSuccessModal]
    {
      modalActive := true;
      effects := effects + [ShowSuccessModal];
    }

    /** `closeModal` (script.js:223-229): the modal is hidden and the form is
        reset, which empties both inputs. */
    method CloseModal()
      modifies this`modalActive, this`cardNumber, this`expiry
      ensures !modalActive && cardNumber == "" && expiry == ""
    {
      modalActive := false;
      cardNumber, expiry := "", "";
    }

    /** The submit handler (script.js:166-215). */
    method Submit(outcome: WalletOutcome) returns (accepted: bool)
      requires Valid()
      modifies this`buttonDisabled, this`modalActive, this`client, this`clientsConstructed, this`effects
      ensures Valid()
      ensures accepted == CardNumberPasses(cardNumber)
      ensures effects == old(effects) + SubmitEffects(cardNumber, old(client) != null || apiLoaded, outcome)
      ensures modalActive == (old(modalActive) || (accepted && (old(client) != null || apiLoaded) && outcome == Resolve))
      ensures !accepted ==> client == old(client) && clientsConstructed == old(clientsConstructed)
      ensures accepted && (old(client) != null || apiLoaded) ==> client != null
      ensures old(client) != null ==> client == old(client)
    {
      ghost var reachable := client != null || apiLoaded;
      ghost var before := effects;
      var digits := Remove(cardNumber, IsWhiteSpace);
      if digits != "" && (|digits| < 13 || |digits| > 19) {
        effects := effects + [Alert(InvalidCardMessage)];
        assert SubmitEffects(cardNumber, reachable, outcome) == [Alert(InvalidCardMessage)];
        assert effects == before + SubmitEffects(cardNumber, reachable, outcome);
        SubmitLeavesButtonEnabled(before, cardNumber, reachable, outcome);
        return false;
      }
      assert CardNumberPasses(cardNumber);
      buttonDisabled := true;
      effects := effects + [SetButtonDisabled(true)];
      ghost var afterOn := effects;
      TryLoadPaymentData(outcome);
      ghost var phase := WalletPhase(reachable, outcome);
      assert effects == afterOn + phase + [SetButtonDisabled(false)];
      Regroup(before, SetButtonDisabled(true), phase, SetButtonDisabled(false));
      assert effects == before + SubmitEffects(cardNumber, reachable, outcome);
      SubmitLeavesButtonEnabled(before, cardNumber, reachable, outcome);
      return true;
    }

    /** The submit handler's `try` block and its `catch` (script.js:184-214),
        entered with the button disabled: each of the three ways out writes
        `disabled = false` once, after showing the modal on a resolved
        wallet call and after the alert on a thrown one. */
    method TryLoadPaymentData(outcome: WalletOutcome)
      requires ClientValid() && buttonDisabled
      modifies this`buttonDisabled, this`modalActive, this`client, this`clientsConstructed, this`effects
      ensures ClientValid() && !buttonDisabled
      ensures effects == old(effects) + WalletPhase(old(client) != null || apiLoaded, outcome) + [SetButtonDisabled(false)]
      ensures modalActive == (old(modalActive) || ((old(client) != null || apiLoaded) && outcome == Resolve))
      ensures old(client) != null ==> client == old(client)
      ensures old(client) != null || apiLoaded ==> client != null
    {
      ghost var start := effects;
      var c := GetPaymentsClient();
      if c.None? {
        effects := effects + [Alert(WalletErrorMessage)];
        buttonDisabled := false;
        effects := effects + [SetButtonDisabled(false)];
        return;
      }
      var request := PayRequests.PaymentDataRequest();
      effects := effects + [LoadPaymentData(request)];
      match outcome {
        case Resolve =>
          ShowModal();
          buttonDisabled := false;
          effects := effects + [SetButtonDisabled(false)];
          assert effects == start + [LoadPaymentData(request), ShowSuccessModal] + [SetButtonDisabled(false)];
        case Reject =>
          buttonDisabled := false;
          effects := effects + [SetButtonDisabled(false)];
          assert effects == start + [LoadPaymentData(request)] + [SetButtonDisabled(false)];
        case Throw =>
          effects := effects + [Alert(WalletErrorMessage)];
          buttonDisabled := false;
          effects := effects + [SetButtonDisabled(false)];
          assert effects == start + [LoadPaymentData(request), Alert(WalletErrorMessage)] + [SetButtonDisabled(false)];
      }
    }

    /** `onGooglePayLoaded` (script.js:116-127) once the script's `onload`
        has fired: the client is fetched, readiness is asked, and the Google
        Pay button is added when the answer's `result` is true. A rejected
        readiness check is only logged. */
    method OnGooglePayLoaded(readiness: Settlement<bool>)
      requires Valid()
      modifies this`apiLoaded, this`client, this`clientsConstructed, this`payButtonAdded, this`effects
      ensures Valid()
      ensures apiLoaded && client != null
      ensures old(client) != null ==> client == old(client)
      ensures payButtonAdded == (old(payButtonAdded) || readiness == Resolved(true))
      ensures effects == old(effects) + [IsReadyToPay(PayRequests.IsReadyToPayRequest())] +
        (if readiness == Resolved(true) then [CreateButton] else [])
    {
      apiLoaded := true;
      var c := GetPaymentsClient();
      effects := effects + [IsReadyToPay(PayRequests.IsReadyToPayRequest())];
      OtherEffectKeepsButton(old(effects), IsReadyToPay(PayRequests.IsReadyToPayRequest()));
      if readiness == Resolved(true) {
        AddGooglePayButton();
      }
    }

    /** `addGooglePayButton` (script.js:129-137). */
    method AddGooglePayButton()
      requires Valid() && apiLoaded
      modifies this`client, this`clientsConstructed, this`payButtonAdded, this`effects
      ensures Valid()
      ensures client != null && (old(client) != null ==> client == old(client))
      ensures payButtonAdded
      ensures effects == old(effects) + [CreateButton]
    {
      var c := GetPaymentsClient();
      effects := effects + [CreateButton];
      OtherEffectKeepsButton(old(effects), CreateButton);
      payButtonAdded := true;
    }

    /** `onGooglePaymentButtonClicked` (script.js:140-144): the payment-data
        request is sent through the existing client; the returned promise is
        not observed. */
    method OnGooglePayButtonClicked()
      requires Valid() && payButtonAdded
      modifies this`effects
      ensures Valid()
      ensures effects == old(effects) + [LoadPaymentData(PayRequests.PaymentDataRequest())]
    {
      effects := effects + [LoadPaymentData(PayRequests.PaymentDataRequest())];
      OtherEffectKeepsButton(old(effects), LoadPaymentData(PayRequests.PaymentDataRequest()));
    }

    /** `onPaymentAuthorized` with the page's own `processPayment`
        (script.js:97-113, 146-155): processing shows the success modal and
        always resolves, so the authorization answer is always `SUCCESS`. */
    method OnPaymentAuthorized() returns (r: Settlement<PayRequests.Json>)
      requires Valid()
      modifies this`modalActive, this`effects
      ensures Valid()
      ensures modalActive
      ensures effects == old(effects) + [ShowSuccessModal]
      ensures r == PayRequests.OnPaymentAuthorized(Resolved(()))
      ensures r == Resolved(PayRequests.AuthorizationSuccess)
    {
      ShowModal();
      OtherEffectKeepsButton(old(effects), ShowSuccessModal);
      r := PayRequests.OnPaymentAuthorized(Resolved(()));
    }
  }
}
