/** `FormHandler`: validation of the contact and newsletter forms and the
    submit bracket around the (simulated) request. The controls, the submit
    button and the form's message area are objects whose fields the handler
    updates; the request's outcome is a parameter. */
module Forms {
  import opened Common
  import opened Browser
  import opened Validation
  import An = Analytics

  datatype FormType = Contact | Newsletter

  function FormTypeName(t: FormType): string {
    match t
    case Contact => "contact"
    case Newsletter => "newsletter"
  }

  /** A form control: its attributes, its current value, the value
      `form.reset()` restores, and the error shown under it (the `error`
      class and the `.error-message` element), if any. */
  class Input {
    const name: string
    const kind: string
    const required: bool
    const defaultValue: string
    var value: string
    var error: Option<string>

    constructor (name: string, kind: string, required: bool, defaultValue: string)
      ensures this.name == name && this.kind == kind && this.required == required
      ensures this.defaultValue == defaultValue && value == defaultValue && error == None
    {
      this.name := name;
      this.kind := kind;
      this.required := required;
      this.defaultValue := defaultValue;
      value := defaultValue;
      error := None;
    }

    /** The control as the validation rules see it. */
    function Data(): Field
      reads this`value
    {
      Field(name, kind, required, value)
    }
  }

  /** The form's `button[type="submit"]`. */
  class SubmitButton {
    var disabled: bool
    var text: string

    constructor (text: string)
      ensures !disabled && this.text == text
    {
      disabled := false;
      this.text := text;
    }
  }

  const SendingText: string := "Enviando..."

  /** The messages the form can show: `showFormSuccess` picks one by form
      type, and the failed request shows the fixed error text. */
  datatype Message = SentNewsletter | SentContact | SendFailed

  /** The text of each message. */
  function MessageText(m: Message): string {
    match m
    case SentNewsletter => "Obrigado! Você foi inscrito com sucesso!"
    case SentContact => "Mensagem enviada com sucesso! Entraremos em contato em breve."
    case SendFailed => "Erro ao enviar formulário. Tente novamente."
  }

  /** The `.form-message` element: a message with the `success` or the
      `error` class. */
  datatype Notice = Notice(success: bool, message: Message)

  /** `showFormSuccess`: the newsletter message for newsletter forms, the
      contact message for every other form. */
  function SuccessMessage(t: FormType): Message {
    if t == Newsletter then SentNewsletter else SentContact
  }

  /** What `submitForm` shows for a request that succeeded or failed. */
  function Outcome(t: FormType, sendOk: bool): (n: Notice)
    ensures n.success == sendOk
    ensures n.message == SendFailed <==> !sendOk
  {
    if sendOk then Notice(true, SuccessMessage(t)) else Notice(false, SendFailed)
  }

  /** The payload of the `form_submit` event. */
  function SubmitData(t: FormType, env: Env): An.Record {
    map["form_type" := An.Str(FormTypeName(t)), "timestamp" := An.Str(env.isoTime)]
  }

  /** What one submission adds to the analytics log: `form_submit` on
      success, nothing on failure. */
  function SubmitEvents(t: FormType, sendOk: bool, entries: map<string, string>, env: Env): (es: seq<An.Event>)
    ensures |es| == if sendOk then 1 else 0
    ensures sendOk ==> es[0].name == "form_submit" && es[0].data == SubmitData(t, env)
  {
    if sendOk then [An.Event("form_submit", SubmitData(t, env), An.SessionIdFor(entries, env), env.pageUrl)] else []
  }

  /** The session store after one submission: only a logged event can
      create the session id. */
  function SubmitEntries(sendOk: bool, entries: map<string, string>, env: Env): map<string, string> {
    if sendOk then An.StoreAfter(entries, env) else entries
  }

  class Form {
    const inputs: seq<Input>
    const button: SubmitButton
    var notice: Option<Notice>

    constructor (inputs: seq<Input>, button: SubmitButton)
      ensures this.inputs == inputs && this.button == button && notice == None
    {
      this.inputs := inputs;
      this.button := button;
      notice := None;
    }

    /** Every required control passes its rules. */
    ghost predicate RequiredPass()
      reads this, inputs
    {
      forall j :: 0 <= j < |inputs| && inputs[j].required ==> Verdict(inputs[j].Data()) == None
    }

    /** `form.reset()`: every control back to its default value; the shown
        errors stay. */
    method Reset()
      modifies inputs`value
      ensures forall j :: 0 <= j < |inputs| ==> inputs[j].value == inputs[j].defaultValue
      ensures forall j :: 0 <= j < |inputs| ==> inputs[j].error == old(inputs[j].error)
    {
      var k := 0;
      while k < |inputs|
        invariant 0 <= k <= |inputs|
        invariant forall j :: 0 <= j < k ==> inputs[j].value == inputs[j].defaultValue
        invariant forall j :: 0 <= j < |inputs| ==> inputs[j].error == old(inputs[j].error)
      {
        inputs[k].value := inputs[k].defaultValue;
        k := k + 1;
      }
    }
  }

  /** `validateField`: clear the control's error, walk the `else if` chain
      on the trimmed value, and show the one message it produced, if any. */
  method ValidateField(field: Input) returns (isValid: bool)
    modifies field`error
    ensures isValid <==> Verdict(field.Data()) == None
    ensures field.error == Verdict(field.Data())
  {
    var value := Text.Trim(field.value);
    isValid := true;
    var errorMessage := "";
    field.error := None;
    if field.required && value == [] {
      errorMessage := RequiredMessage;
      isValid := false;
    } else if field.kind == "email" && value != [] {
      if !EmailValid(value) {
        errorMessage := EmailMessage;
        isValid := false;
      }
    } else if field.name == "phone" && value != [] {
      if !PhoneValid(Text.RemoveSpaces(value)) {
        errorMessage := PhoneMessage;
        isValid := false;
      }
    } else if field.name == "name" && value != [] {
      if Text.Utf16Length(value) < 2 {
        errorMessage := NameMessage;
        isValid := false;
      }
    }
    if !isValid {
      field.error := Some(errorMessage);
    }
  }

  /** `validateForm`: every required control is validated, even after one
      has failed, so each shows its own message; the form passes exactly
      when all of them pass. */
  method ValidateForm(form: Form) returns (isValid: bool)
    modifies form.inputs`error
    ensures isValid <==> form.RequiredPass()
    ensures forall j :: 0 <= j < |form.inputs| ==> form.inputs[j].value == old(form.inputs[j].value)
    ensures forall j :: 0 <= j < |form.inputs| && form.inputs[j].required ==>
      form.inputs[j].error == Verdict(form.inputs[j].Data())
    ensures forall j :: 0 <= j < |form.inputs| && !form.inputs[j].required ==>
      form.inputs[j].error == old(form.inputs[j].error)
  {
    var inputs := form.inputs;
    isValid := true;
    var k := 0;
    while k < |inputs|
      invariant 0 <= k <= |inputs|
      invariant forall j :: 0 <= j < k && inputs[j].required ==> inputs[j].error == Verdict(inputs[j].Data())
      invariant forall j :: 0 <= j < |inputs| && !inputs[j].required ==> inputs[j].error == old(inputs[j].error)
      invariant isValid <==> forall j :: 0 <= j < k && inputs[j].required ==> Verdict(inputs[j].Data()) == None
    {
      if inputs[k].required {
        label pre:
        var ok := ValidateField(inputs[k]);
        forall j | 0 <= j < k && inputs[j].required && inputs[j] != inputs[k]
          ensures inputs[j].error == Verdict(inputs[j].Data())
        {
          assert inputs[j].error == old@pre(inputs[j].error);
        }
        if !ok {
          isValid := false;
        }
      }
      k := k + 1;
    }
  }

  /** The loading state: the button is disabled and says `Enviando...`; its
      previous text is handed back for the `finally` block. */
  method BeginSubmit(button: SubmitButton) returns (originalText: string)
    modifies button
    ensures originalText == old(button.text)
    ensures button.disabled && button.text == SendingText
  {
    originalText := button.text;
    button.disabled := true;
    button.text := SendingText;
  }

  /** The `finally` block: the button is enabled again with its old text. */
  method FinishSubmit(button: SubmitButton, originalText: string)
    modifies button
    ensures !button.disabled && button.text == originalText
  {
    button.disabled := false;
    button.text := originalText;
  }

  /** `submitForm`, with the outcome of the request as `sendOk`. On success
      the form shows its success text, is reset, and `form_submit` is logged
      when an analytics object exists; on failure it shows the error text
      and nothing else changes. Either way the button ends enabled with its
      original text. */
  method SubmitForm(form: Form, t: FormType, sendOk: bool, analytics: An.Analytics?, env: Env)
    modifies form`notice, form.button, form.inputs`value
    modifies (if analytics == null then {} else {analytics})`events
    modifies (if analytics == null then {} else {analytics.storage})`entries
    ensures !form.button.disabled && form.button.text == old(form.button.text)
    ensures form.notice == Some(Outcome(t, sendOk))
    ensures forall j :: 0 <= j < |form.inputs| ==>
      form.inputs[j].value == if sendOk then form.inputs[j].defaultValue else old(form.inputs[j].value)
    ensures forall j :: 0 <= j < |form.inputs| ==> form.inputs[j].error == old(form.inputs[j].error)
    ensures analytics != null ==>
      analytics.events == old(analytics.events) + SubmitEvents(t, sendOk, old(analytics.storage.entries), env)
    ensures analytics != null ==>
      analytics.storage.entries == SubmitEntries(sendOk, old(analytics.storage.entries), env)
  {
    var originalText := BeginSubmit(form.button);
    ShowOutcome(form, t, sendOk);
    if sendOk {
      TrackSubmit(analytics, t, env);
    }
    FinishSubmit(form.button, originalText);
  }

  /** The outcome shown in the form: on success the success text, and the
      form is reset; on failure the error text. */
  method ShowOutcome(form: Form, t: FormType, sendOk: bool)
    modifies form`notice, form.inputs`value
    ensures form.notice == Some(Outcome(t, sendOk))
    ensures forall j :: 0 <= j < |form.inputs| ==>
      form.inputs[j].value == if sendOk then form.inputs[j].defaultValue else old(form.inputs[j].value)
  {
    if sendOk {
      form.notice := Some(Notice(true, SuccessMessage(t)));
      form.Reset();
    } else {
      form.notice := Some(Notice(false, SendFailed));
    }
  }

  /** `window.analytics?.logEvent('form_submit', ...)`: logged only when
      the analytics object exists. */
  method TrackSubmit(analytics: An.Analytics?, t: FormType, env: Env)
    modifies (if analytics == null then {} else {analytics})`events
    modifies (if analytics == null then {} else {analytics.storage})`entries
    ensures analytics != null ==>
      analytics.events == old(analytics.events) + SubmitEvents(t, true, old(analytics.storage.entries), env)
    ensures analytics != null ==>
      analytics.storage.entries == SubmitEntries(true, old(analytics.storage.entries), env)
  {
    if analytics != null {
      analytics.LogEvent("form_submit", SubmitData(t, env), env);
    }
  }

  /** `handleContactSubmit` / `handleNewsletterSubmit`: validate, and
      submit only a form that passes. */
  method HandleSubmit(form: Form, t: FormType, sendOk: bool, analytics: An.Analytics?, env: Env)
    returns (submitted: bool)
    modifies form`notice, form.button, form.inputs`value, form.inputs`error
    modifies (if analytics == null then {} else {analytics})`events
    modifies (if analytics == null then {} else {analytics.storage})`entries
    ensures submitted <==> old(form.RequiredPass())
    ensures forall j :: 0 <= j < |form.inputs| && form.inputs[j].required ==>
      form.inputs[j].error == Verdict(old(form.inputs[j].Data()))
    ensures !submitted ==>
      form.notice == old(form.notice) && form.button.disabled == old(form.button.disabled)
      && form.button.text == old(form.button.text)
    ensures !submitted && analytics != null ==>
      analytics.events == old(analytics.events) && analytics.storage.entries == old(analytics.storage.entries)
    ensures submitted ==>
      !form.button.disabled && form.button.text == old(form.button.text)
      && form.notice == Some(Outcome(t, sendOk))
    ensures submitted && analytics != null ==>
      analytics.events == old(analytics.events) + SubmitEvents(t, sendOk, old(analytics.storage.entries), env)
    ensures submitted && analytics != null ==>
      analytics.storage.entries == SubmitEntries(sendOk, old(analytics.storage.entries), env)
    ensures forall j :: 0 <= j < |form.inputs| ==>
      form.inputs[j].value == if submitted && sendOk then form.inputs[j].defaultValue else old(form.inputs[j].value)
    ensures forall j :: 0 <= j < |form.inputs| && !form.inputs[j].required ==>
      form.inputs[j].error == old(form.inputs[j].error)
  {
    submitted := ValidateForm(form);
    if submitted {
      SubmitForm(form, t, sendOk, analytics, env);
    }
  }
}
