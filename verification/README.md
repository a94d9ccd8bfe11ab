# Card capture page and static server, modelled in Dafny

This project models a small payment page and the server that hosts it. The
page is `script.js`. It formats a card number and an expiry date as they are
typed. On submit it refuses, with an alert, a card number whose length
without whitespace is neither 0 nor 13 to 19. Otherwise it disables the
submit button and requests the Google Pay sheet. Once the sheet is
requested, the page shows the success modal when the sheet's promise
resolves and nothing when it rejects. It alerts only when no client can be
built or the wallet call throws. Either way the button is enabled again.
The server is `server.js`. It maps a request URL to a file under its working directory and
picks a content type from the file's extension. It answers 200, 404 or 500
depending on how reading the file went. At start-up it picks the first
external IPv4 address to print.

Modules:

- `JsText`: the JavaScript string behaviour the code relies on.
  - `replace` with a one-character class and an empty replacement.
  - `slice` with clamping, `join`, and `toLowerCase`.
  - The regular-expression classes `\s`, `\d` and `.`, following ECMAScript.
  - `Option`, and `Settlement` for how a promise settled.
- `CardFormat`: the two `input` handlers.
  - The card number is regrouped in fours.
  - The expiry becomes `MM/YY`.
- `PayRequests`: the Google Pay request objects, as JSON-like values, and
  the answer `onPaymentAuthorized` gives.
- `PaymentPage`: the page as a class.
  - Its fields are the input values, the button's `disabled` flag, the
    modal's state, the lazily built client, and a log of everything the page
    does that is seen from outside. The log holds alerts, button writes,
    modal shows and calls into the wallet.
  - Each event handler is one method.
  - The wallet's answer (resolve, reject or throw) is a parameter.
  - Whether the Google Pay script has loaded is a field.
  - `Valid()` holds between events. It says the button is enabled and that
    the last logged button write agrees with the flag. It also says at most
    one client is ever built.
  - The effects of a submit are a function, `SubmitEffects`. The lemmas
    about it hold the page's promises:
    - a refused card number only alerts;
    - an accepted one disables the button first and re-enables it last,
      once each;
    - the wallet is called only while the button is disabled;
    - the modal and the alerts appear exactly in the cases the code gives.
- `StaticServer`: the request handler, with the file system as a function
  from paths to read results. It also models `getLocalIP` as a loop,
  proved against a reference function.

`script.js` has no card-brand classification, no expiry-length check, no
refusal of a fully empty form, no cascade of save-card strategies or autofill
fallback, and no messages that dismiss themselves. Its only gate is the
card-number length, Google Pay is its only strategy, and an empty card
number passes the gate.

## Model

| member | source | states |
|---|---|---|
| JsText.Remove | script.js:6 | `replace(/[class]/g, '')` leaves no character of the class, never lengthens the text, and leaves text without such characters unchanged |
| JsText.RemoveSingle | script.js:6 | one character is dropped exactly when it is in the class; with `RemoveAppend` this fixes the result on every text, so the other characters survive in their order |
| JsText.RemoveCounts | script.js:6 | every character outside the class occurs in the result exactly as often as in the input |
| JsText.RemoveAppend | script.js:170 | removing a class distributes over concatenation |
| JsText.RemoveJoin | script.js:7 | removing the separator class from a join of separator-free parts gives the parts laid end to end |
| JsText.Slice | script.js:16 | `slice` clamps both ends to the length: within bounds it is the sub-sequence, an end past the length stops at the end, and a start at or past the length or an end before the start gives the empty string |
| JsText.Join | script.js:7 | no parts give the empty string and one part gives that part; in general the join is as long as the parts together plus one separator between each pair; its content is stated by `RemoveJoin` and `GroupedText` |
| JsText.LowerChar | server.js:43 | `toLowerCase` on one character: A-Z go to a-z, the Kelvin sign goes to `k`, and every other character is kept |
| JsText.ToLower | server.js:43 | lowering keeps the length and lowers each character in place |
| CardFormat.DotRun | script.js:7 | one greedy match of `.{1,4}` covers at most four characters, none of them a line terminator, and stops early only at a line terminator |
| CardFormat.Matches4 | script.js:7 | every match of `/.{1,4}/g` is one to four characters long |
| CardFormat.MatchesTile | script.js:7 | on text without line terminators the matches tile the text: they are fours except the last, they concatenate back to the text, and there are none only for empty text |
| CardFormat.CardNumberShape | script.js:5-9 | the formatted number is the groups joined by single spaces; each group is four characters except the last, which is one to four; no group holds whitespace; the groups concatenate to the input without whitespace; the output is empty exactly when the input is all whitespace |
| CardFormat.CardNumberRoundTrip | script.js:6-7 | taking the spaces out of the formatted number gives back the input without its whitespace |
| CardFormat.CardNumberIdempotent | script.js:5-9 | formatting an already formatted number changes nothing |
| CardFormat.GroupedText | script.js:7 | a whitespace-free value of at most four characters is shown as is; a longer one is its first four, a space, and the rest formatted the same way |
| CardFormat.CardNumberLayout | script.js:6-7 | position by position: a space stands exactly at every fifth position, the other positions hold the stripped input in order, and the length is the stripped length plus one space per full group of four that is followed by more |
| CardFormat.ExpiryShape | script.js:13-19 | fewer than two digits are shown as they are, with no slash; otherwise the output is the first two digits, a slash and the next zero to two digits; it is at most five characters, all digits or that slash; it is five characters exactly when there are four or more digits |
| CardFormat.ExpiryContent | script.js:14-16 | without its slash, the formatted expiry is the first four (or fewer) digits of the input |
| CardFormat.ExpiryIdempotent | script.js:13-19 | formatting an already formatted expiry changes nothing |
| PayRequests.Assign | script.js:47-53 | `Object.assign` gives the union of both key sets; the source's properties win, and the target's other properties are kept |
| PayRequests.IsReadyToPayRequestShape | script.js:57-65 | the readiness request holds API version 2.0 and the card method without a tokenization specification, and nothing else |
| PayRequests.PaymentDataRequestShape | script.js:67-83 | the payment-data request holds exactly API version 2.0, the tokenized card method, a total of unknown status in USD, the merchant `Mi Tienda` with its ID, and the single callback intent `PAYMENT_AUTHORIZATION` |
| PayRequests.RequestsAgree | script.js:39-83 | both requests carry the same API version. The payment-data request's method is the readiness request's method plus exactly the tokenization specification |
| PayRequests.OnPaymentAuthorized | script.js:97-113 | the promise always resolves. The state is `SUCCESS` exactly when processing succeeded, and then it is the only key. Otherwise the state is `ERROR`, with intent `PAYMENT_AUTHORIZATION` and reason `PAYMENT_DATA_INVALID` |
| PaymentPage.WalletPhaseFacts | script.js:184-214 | between disabling and re-enabling the button nothing writes the button. The modal is shown exactly when the client is reachable and the wallet resolves. The error alert appears exactly when the client cannot be built or the call throws. The wallet is called once, first, with the payment-data request, exactly when the client is reachable |
| PaymentPage.SubmitEffectsFacts | script.js:166-215 | a refused card number only alerts. An accepted one writes `disabled = true` first and `disabled = false` last, once each, and calls the wallet at most once, right after disabling, with the payment-data request. The modal and the error alert appear exactly in the cases the handler gives |
| PaymentPage.ButtonConsistency | script.js:180-212 | during a submit the wallet is called only while the button is disabled; afterwards the button is enabled if the submit was accepted, and unchanged if it was refused |
| PaymentPage.SubmitLeavesButtonEnabled | script.js:166-215 | a submit that starts with the button enabled leaves it enabled |
| PaymentPage.PaymentsClient.constructor | script.js:87-92 | the client is built for the `TEST` environment with `onPaymentAuthorized` as its only data callback |
| PaymentPage.Page.constructor | script.js:55 | the page starts with empty inputs, an enabled button, a hidden modal and no client |
| PaymentPage.Page.OnCardNumberInput | script.js:5-9 | the card-number field holds the formatted input |
| PaymentPage.Page.OnExpiryInput | script.js:13-19 | the expiry field holds the formatted input |
| PaymentPage.Page.GetPaymentsClient | script.js:85-95 | an existing client is returned unchanged. Without one, a client is built once, if the Google Pay script has loaded; otherwise the constructor throws and nothing is stored |
| PaymentPage.Page.ShowModal | script.js:218-221 | the modal becomes active and one modal show is logged |
| PaymentPage.Page.CloseModal | script.js:223-229 | the modal is hidden and both inputs are emptied by the form reset |
| PaymentPage.Page.Submit | script.js:166-215 | the submit is accepted exactly when the stripped card number is empty or 13 to 19 characters long. The log grows by exactly `SubmitEffects`. The modal becomes active only on an accepted submit whose wallet call resolves. The button is enabled again afterwards. A refused submit leaves the client alone; an accepted one leaves a client in place whenever one could be built |
| PaymentPage.Page.TryLoadPaymentData | script.js:184-214 | each of the three ways out of the `try` and `catch` logs the wallet phase and then re-enables the button; a client exists afterwards whenever one existed or the script had loaded |
| PaymentPage.Page.OnGooglePayLoaded | script.js:116-127 | once the script has loaded, a client exists and readiness is asked with the readiness request. The Google Pay button is added exactly when the answer resolves with `result` true |
| PaymentPage.Page.AddGooglePayButton | script.js:129-137 | the button is created through the (possibly new) client, offering the card method without a tokenization specification, and recorded as added |
| PaymentPage.Page.OnGooglePayButtonClicked | script.js:140-144 | the payment-data request is sent through the existing client, and the button state is untouched |
| PaymentPage.Page.OnPaymentAuthorized | script.js:146-155 | with the page's own `processPayment`, the modal is shown and the authorization answer is always `SUCCESS` |
| StaticServer.FilePath | server.js:38-41 | `/` maps to `./index.html`; any other URL maps to `.` followed by the URL |
| StaticServer.ExtnameShape | server.js:43 | `path.extname` gives either nothing, or a dot followed by no dot and no slash; that extension ends the path once trailing slashes are dropped |
| StaticServer.ExtnameOfSegment | server.js:43 | the extension of a path whose last segment is a non-empty stem followed by a dot-extension is that extension |
| StaticServer.ContentTypeOf | server.js:43-44 | the default `application/octet-stream` is given exactly when the lowered extension is not in the table; otherwise the answer is a value from the table |
| StaticServer.AnyCaseOfListedExtension | server.js:43-44 | an extension that spells a listed one in any mix of upper and lower case gets that entry's content type |
| StaticServer.UpperCaseHtml | server.js:43-44 | `./INDEX.HTML` is served as `text/html` |
| StaticServer.Respond | server.js:46-59 | 200 with the looked-up content type and the file's bytes exactly when the file was read. 404 with an HTML page exactly for `ENOENT`. 500 with no headers and `Server Error: <code>` for any other error |
| StaticServer.HandleRequest | server.js:38-59 | the response for a URL is the one `Respond` gives for its mapped path, in all three cases |
| StaticServer.RootIsIndexHtml | server.js:38-44 | the root URL is answered from `./index.html` as `text/html` |
| StaticServer.NotFoundIgnoresExtension | server.js:46-50 | two missing files get the same 404 response, whatever their extensions |
| StaticServer.FirstInList | server.js:13-17 | the index found is the first external IPv4 entry of the list from the start point on; when none is found, there is no such entry |
| StaticServer.FirstExternal | server.js:12-19 | the position found is the first external IPv4 interface in name order and then list order; when none is found, there is no such interface |
| StaticServer.GetLocalIP | server.js:10-21 | the nested loops return the address of the first external IPv4 interface, and `localhost` when there is none |

## Left out

- DOM wiring, `preventDefault`, the button's `innerHTML` labels and the modal's styling: the model keeps only the `disabled` flag, the modal's state and the input values.
- Loading the Google Pay script (script.js:157-162): whether it has loaded is the `apiLoaded` field, and `onload` is `Page.OnGooglePayLoaded`.
- The Google Pay API itself: what `loadPaymentData` and `isReadyToPay` do is not visible, so their outcomes are parameters and only the calls are logged.
- Asynchrony: each promise chain runs to completion inside one handler. So a second submit while the sheet is open is not modelled, and neither is the 1.5-second `setTimeout` delay in `processPayment`.
- The success modal can be shown twice, once by `processPayment` and once when the wallet call resolves. Adding the `active` class twice has the same effect as once, and the model does not combine the two paths.
- `console.log`, `console.error`, and the rejection reasons they print.
- `fs.readFile`, `http.createServer`, `listen` and the start-up banner (server.js:1-7, 35-36, 62-79): the file system is a function from paths to read results. The interface table is an input.
- Strings are sequences of Unicode scalar values, but JavaScript counts UTF-16 code units. So a card number that holds characters outside the Basic Multilingual Plane has a different length in the model than in the browser, and so does its grouping.
- JsText.LowerChar: lowers only A-Z and the Kelvin sign. Every other character whose lower-case form is not wholly ASCII is left as it is, which does not change any lookup in the all-ASCII MIME table.
- Objects are values here. So `Object.assign`'s copying, and any aliasing of `baseRequest` between the two request builders, are not modelled: the model cannot state that neither builder mutates `baseRequest`.
- `path.extname` is modelled after Node's POSIX algorithm. The Windows variant is not modelled.
- `Object.keys` order is taken to be the order of the given interface table. Node versions that report `family` as the number 4 are not modelled.
- `paymentForm.reset()` is taken to empty both inputs, because index.html is not part of this model and the inputs' default values are unknown.
- In `onPaymentAuthorized`, processing is given as a settled promise. With the page's own `processPayment`, which always resolves, the `ERROR` answer cannot occur.
- The promise returned by `loadPaymentData` in `onGooglePaymentButtonClicked` is not observed by the code, and so not by the model.
