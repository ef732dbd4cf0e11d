/**
  The contact form (src/components/ContactForm.tsx): a submission status
  machine idle → loading → ok/err with a hidden honeypot field, a required
  anti-spam widget token and a POST to the form backend; the widget's token
  callbacks; the widget's colour theme; and the submit button. The outcome of
  the network request is an input.
 */
module ContactForm {
  import opened JsBuiltins
  import opened ThemeDom
  import opened SearchParams

  datatype Status = Idle | Loading | Ok | Err

  /** The form's fields, in document order; `gotcha` is the hidden honeypot `_gotcha`. */
  datatype Fields = Fields(company: string, name: string, email: string, message: string, gotcha: string)

  /** What `form.reset()` leaves: every field empty. */
  const EmptyFields: Fields := Fields("", "", "", "", "")

  const TokenField: string := "cf-turnstile-response"
  const EndpointBase: string := "https://formspree.io/f/"

  /** The names of the form's fields, in document order. */
  const FieldNames: seq<string> := ["company", "name", "email", "message", "_gotcha"]

  /** `new FormData(form)`: one name/value pair per named field, in document order. */
  function FormData(f: Fields): (d: seq<(string, string)>)
    ensures |d| == |FieldNames| && forall j :: 0 <= j < |d| ==> d[j].0 == FieldNames[j]
    ensures GetParam(d, "company") == Some(f.company)
    ensures GetParam(d, "name") == Some(f.name)
    ensures GetParam(d, "email") == Some(f.email)
    ensures GetParam(d, "message") == Some(f.message)
    ensures GetParam(d, "_gotcha") == Some(f.gotcha)
    ensures d[4] == ("_gotcha", f.gotcha)
  {
    var d := [("company", f.company), ("name", f.name), ("email", f.email), ("message", f.message), ("_gotcha", f.gotcha)];
    assert forall j, k :: 0 <= j < k < 5 ==> d[j].0[0] != d[k].0[0];
    GetParamAt(d, 0);
    GetParamAt(d, 1);
    GetParamAt(d, 2);
    GetParamAt(d, 3);
    GetParamAt(d, 4);
    d
  }

  /** The POST the form sends. */
  datatype Request = Request(endpoint: string, httpMethod: string, accept: string, body: seq<(string, string)>)

  /** How the request ended: a response with its HTTP status, or a thrown `fetch`. */
  datatype FetchOutcome = Responded(status: int) | Threw

  /** `res.ok`: a status in 200..299. */
  predicate ResponseOk(o: FetchOutcome) {
    o.Responded? && 200 <= o.status <= 299
  }

  /** The component's state: field values, status, the widget token and the widget id. */
  datatype Form = Form(fields: Fields, status: Status, token: Option<string>, widgetId: Option<string>)

  /** Where `onSubmit` stands at its `await`: the form so far and the request in flight, if any. */
  datatype Started = Started(after: Form, request: Option<Request>)

  /**
    The synchronous part of `onSubmit`, up to the `await`: the form after it
    and the request it starts, if any. The status first becomes "loading". A
    filled honeypot ends in "ok" with the form reset and nothing sent; it is
    checked before the token. Without a token the result is "err" and nothing
    is sent. Otherwise the fields plus the token are POSTed and the form stays
    "loading" until the response.
   */
  function Start(form: Form, formspreeId: string): (s: Started)
    ensures s.after.widgetId == form.widgetId
    ensures s.request.Some? <==> form.fields.gotcha == "" && Truthy(form.token)
    ensures form.fields.gotcha != "" ==> s.after == form.(status := Ok, fields := EmptyFields)
    ensures form.fields.gotcha == "" && !Truthy(form.token) ==> s.after == form.(status := Err)
    ensures s.request.Some? ==>
      && s.after == form.(status := Loading)
      && s.request.value == Request(EndpointBase + formspreeId, "POST", "application/json",
                                    FormData(form.fields) + [(TokenField, form.token.value)])
  {
    if form.fields.gotcha != "" then
      Started(form.(status := Ok, fields := EmptyFields), None)
    else if !Truthy(form.token) then
      Started(form.(status := Err), None)
    else
      Started(form.(status := Loading),
              Some(Request(EndpointBase + formspreeId, "POST", "application/json",
                           FormData(form.fields) + [(TokenField, form.token.value)])))
  }

  /**
    The part after the `await`, applied to the form `now` as it is when the
    request ends (the widget may have changed the token meanwhile): a 2xx
    response gives "ok", resets the form, clears the token and resets the
    widget (when it has an id); any other response or a thrown `fetch` gives
    "err" and leaves the rest as it is. The second component says whether the
    widget is reset.
   */
  function Finish(now: Form, outcome: FetchOutcome): (r: (Form, bool))
    ensures r.0.widgetId == now.widgetId
    ensures ResponseOk(outcome) ==>
      r.0 == now.(status := Ok, fields := EmptyFields, token := None) && r.1 == Truthy(now.widgetId)
    ensures !ResponseOk(outcome) ==> r.0 == now.(status := Err) && !r.1
  {
    if ResponseOk(outcome) then (now.(status := Ok, fields := EmptyFields, token := None), Truthy(now.widgetId))
    else (now.(status := Err), false)
  }

  /**
    What one submission does when nothing happens while the request is in
    flight: the statuses it passes through, the form after it, the request it
    sends (if any), and whether it resets the widget.
   */
  datatype Submission = Submission(statuses: seq<Status>, after: Form, request: Option<Request>, widgetReset: bool)

  /** `onSubmit` from start to end, with no widget event during the request. */
  function Submit(form: Form, formspreeId: string, outcome: FetchOutcome): (s: Submission)
    ensures |s.statuses| == 2 && s.statuses[0] == Loading && s.statuses[1] == s.after.status
    ensures s.after.status == Ok || s.after.status == Err
    ensures s.after.widgetId == form.widgetId
    ensures form.fields.gotcha != "" ==>
      s.after == form.(status := Ok, fields := EmptyFields) && s.request.None? && !s.widgetReset
    ensures form.fields.gotcha == "" && !Truthy(form.token) ==>
      s.after == form.(status := Err) && s.request.None? && !s.widgetReset
    ensures form.fields.gotcha == "" && Truthy(form.token) ==>
      s.request == Some(Request(EndpointBase + formspreeId, "POST", "application/json",
                                FormData(form.fields) + [(TokenField, form.token.value)]))
    ensures s.request.Some? && ResponseOk(outcome) ==>
      s.after == form.(status := Ok, fields := EmptyFields, token := None) && s.widgetReset == Truthy(form.widgetId)
    ensures s.request.Some? && !ResponseOk(outcome) ==>
      s.after == form.(status := Err) && !s.widgetReset
  {
    var st := Start(form, formspreeId);
    if st.request.None? then
      Submission([Loading, st.after.status], st.after, None, false)
    else
      var fin := Finish(st.after, outcome);
      Submission([Loading, fin.0.status], fin.0, st.request, fin.1)
  }

  /**
    A widget event while the request is in flight: the request still carries
    the token the submission started with; on "ok" the token is cleared
    whatever the widget did, and on "err" the token is the one the widget left.
   */
  lemma WidgetDuringRequest(form: Form, formspreeId: string, ev: WidgetEvent, outcome: FetchOutcome)
    requires Start(form, formspreeId).request.Some?
    ensures var st := Start(form, formspreeId);
      var fin := Finish(st.after.(token := OnWidget(st.after.token, ev)), outcome);
      && st.request.value.body[5] == (TokenField, form.token.value)
      && (ResponseOk(outcome) ==> fin.0.token.None? && fin.0.status == Ok)
      && (!ResponseOk(outcome) ==> fin.0.token == OnWidget(form.token, ev) && fin.0.status == Err)
  {
  }

  /** Every request carries the widget token as its last field, and nothing is sent without a token. */
  lemma NoRequestWithoutToken(form: Form, formspreeId: string, outcome: FetchOutcome)
    ensures Submit(form, formspreeId, outcome).request.Some? <==> form.fields.gotcha == "" && Truthy(form.token)
    ensures Submit(form, formspreeId, outcome).request.Some? ==>
      var body := Submit(form, formspreeId, outcome).request.value.body;
      |body| == 6 && body[5] == (TokenField, form.token.value) && body[..5] == FormData(form.fields)
  {
  }

  /** A bot that fills the honeypot is told "ok" and never reaches the backend, token or not. */
  lemma HoneypotNeverSends(form: Form, formspreeId: string, outcome: FetchOutcome)
    requires form.fields.gotcha != ""
    ensures Submit(form, formspreeId, outcome).request.None?
    ensures Submit(form, formspreeId, outcome).after.status == Ok
  {
  }

  /** A token is used for at most one accepted message: after "ok" from the backend it is gone. */
  lemma TokenUsedOnce(form: Form, formspreeId: string, outcome: FetchOutcome)
    requires Submit(form, formspreeId, outcome).request.Some?
    requires Submit(form, formspreeId, outcome).after.status == Ok
    ensures Submit(form, formspreeId, outcome).after.token.None?
    ensures ResponseOk(outcome)
  {
  }

  // ---------------------------------------------------------------------------
  // The widget

  datatype WidgetEvent = Solved(tok: string) | Errored | Expired

  /** The widget's callbacks: a solved challenge sets the token, an error or expiry clears it. */
  function OnWidget(token: Option<string>, ev: WidgetEvent): (r: Option<string>)
    ensures ev.Solved? ==> r == Some(ev.tok)
    ensures !ev.Solved? ==> r.None?
  {
    match ev
    case Solved(tok) => Some(tok)
    case Errored => None
    case Expired => None
  }

  /**
    The callbacks decide what the next submission sends (honeypot empty): after
    an error or expiry, or a solved challenge with an empty token, nothing is
    sent and the form reports "err"; after a solved challenge with a token, the
    request ends with that token.
   */
  lemma WidgetThenSubmit(form: Form, ev: WidgetEvent, formspreeId: string, outcome: FetchOutcome)
    requires form.fields.gotcha == ""
    ensures var s := Submit(form.(token := OnWidget(form.token, ev)), formspreeId, outcome);
      && (!ev.Solved? || ev.tok == "" ==> s.request.None? && s.after.status == Err)
      && (ev.Solved? && ev.tok != "" ==>
            s.request.Some? && s.request.value.body[|s.request.value.body| - 1] == (TokenField, ev.tok))
  {
  }

  /** The widget's theme: "dark" exactly when the root's `data-theme` is "dark"; the class is not consulted. */
  function WidgetTheme(root: Root): (t: string)
    ensures t == "dark" || t == "light"
    ensures t == "dark" <==> root.dataTheme == Some("dark")
  {
    if root.dataTheme == Some("dark") then "dark" else "light"
  }

  /** On a root whose class and attribute agree, the widget follows the class as well. */
  lemma WidgetFollowsAgreeingRoot(root: Root)
    requires Agrees(root)
    ensures WidgetTheme(root) == "dark" <==> root.darkClass
  {
  }

  // ---------------------------------------------------------------------------
  // The submit button and the status line

  datatype SubmitButton = SubmitButton(disabled: bool, busy: bool, caption: string)

  /** Disabled, busy and labelled "Sending…" exactly while loading; otherwise "Send". */
  function Button(status: Status): (b: SubmitButton)
    ensures b.disabled <==> status == Loading
    ensures b.busy == b.disabled
    ensures b.caption == (if status == Loading then "Sending…" else "Send")
  {
    if status == Loading then SubmitButton(true, true, "Sending…") else SubmitButton(false, false, "Send")
  }

  /** The message next to the button: thanks after "ok", a failure note after "err", none otherwise. */
  function StatusMessage(status: Status): (m: Option<string>)
    ensures m.Some? <==> status == Ok || status == Err
  {
    match status
    case Ok => Some("Thanks! I’ll get back to you soon.")
    case Err => Some("Sending failed. Please check the captcha and try again.")
    case _ => None
  }

  /** While a submission is in flight the button cannot start another; once it ends the button is enabled again. */
  lemma ButtonAfterSubmit(form: Form, formspreeId: string, outcome: FetchOutcome)
    ensures Button(Submit(form, formspreeId, outcome).statuses[0]).disabled
    ensures !Button(Submit(form, formspreeId, outcome).after.status).disabled
    ensures StatusMessage(Submit(form, formspreeId, outcome).after.status).Some?
  {
  }
}
