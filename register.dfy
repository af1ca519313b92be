/**
 * The registration page: a form of six text fields, the request it becomes, and
 * the update that edits the form and submits it once the password is confirmed.
 */
module RegisterPage {
  import opened Prelude
  import opened Shared
  import opened Session
  import opened App
  import Routes

  datatype Form = Form(
    first_name: string,
    last_name: string,
    email: string,
    phone: string,
    password: string,
    confirm_password: string)

  /** `Form::default()`: every field empty. */
  const DefaultForm := Form("", "", "", "", "", "")

  /** `From<Form> for RegisterRequestBody`: the optional fields are always sent, even when empty. */
  function ToRequest(form: Form): (body: RegisterRequestBody)
    ensures body.email == form.email && body.password == form.password
    ensures body.first_name == Some(form.first_name) && body.last_name == Some(form.last_name)
    ensures body.phone == Some(form.phone)
  {
    RegisterRequestBody(form.email, form.password, Some(form.first_name), Some(form.last_name), Some(form.phone))
  }

  /** The confirmation never reaches the request: forms differing only there send the same body. */
  lemma ConfirmationNotSent(form: Form, confirm: string)
    ensures ToRequest(form.(confirm_password := confirm)) == ToRequest(form)
  {
  }

  /** The view marks the confirmation field (its label and its input) invalid while it differs from the password. */
  predicate ConfirmInvalid(form: Form)
  {
    form.confirm_password != form.password
  }

  datatype Msg =
    | FirstNameChanged(first_name: string)
    | LastNameChanged(last_name: string)
    | PhoneChanged(phone: string)
    | EmailChanged(email: string)
    | PasswordChanged(password: string)
    | ConfirmPasswordChanged(confirm_password: string)
    | RegisterSubmitted
    | RegisterCancelled
    | RegisterFetched(result: Result<LoggedUser, FetchError>)

  /** What an update asks of the outside world. */
  datatype Effect =
    | NoEffect
    | PostRegister(body: RegisterRequestBody)       // POST /v1/users/add
    | GoTo(route: Routes.Route)
    | SaveUserAndGoTo(user: LoggedUser, route: Routes.Route)  // local storage, then navigate

  /**
   * The submit branch of `update`: post the form's request unless the confirmation
   * differs from the password. The guard is the comparison the view flags, so a
   * submit goes out exactly when no field is shown invalid.
   */
  function Submit(form: Form): (effect: Effect)
    ensures effect.PostRegister? <==> !ConfirmInvalid(form)
    ensures effect.PostRegister? ==> effect.body == ToRequest(form)
    ensures !effect.PostRegister? ==> effect == NoEffect
  {
    if form.confirm_password == form.password then PostRegister(ToRequest(form)) else NoEffect
  }

  class Model {
    var session: Session
    var form: Form

    /** `init`: the given session and an empty form. */
    constructor Init(session: Session)
      ensures this.session == session && form == DefaultForm
    {
      this.session := session;
      form := DefaultForm;
    }

    /** `sink`: a new session replaces the page's one and sends the user to Home; other messages are ignored. */
    method Sink(g: GMsg) returns (effect: Effect)
      modifies this
      ensures form == old(form)
      ensures g.SessionChanged? ==> session == g.session && effect == GoTo(Routes.Home)
      ensures g.RoutePushed? ==> session == old(session) && effect == NoEffect
    {
      effect := NoEffect;
      if g.SessionChanged? {
        session := g.session;
        effect := GoTo(Routes.Home);
      }
    }

    /** `update`: the six setters, the guarded submit, cancel, and the fetch reply. */
    method Update(msg: Msg) returns (effect: Effect)
      modifies this
      ensures session == old(session)
      ensures msg.FirstNameChanged? ==> form == old(form).(first_name := msg.first_name) && effect == NoEffect
      ensures msg.LastNameChanged? ==> form == old(form).(last_name := msg.last_name) && effect == NoEffect
      ensures msg.EmailChanged? ==> form == old(form).(email := msg.email) && effect == NoEffect
      ensures msg.PhoneChanged? ==> form == old(form).(phone := msg.phone) && effect == NoEffect
      ensures msg.PasswordChanged? ==> form == old(form).(password := msg.password) && effect == NoEffect
      ensures msg.ConfirmPasswordChanged? ==>
                form == old(form).(confirm_password := msg.confirm_password) && effect == NoEffect
      ensures msg.RegisterSubmitted? ==> form == old(form)
      ensures msg.RegisterSubmitted? ==> effect == Submit(form)
      ensures msg.RegisterSubmitted? ==> (effect.PostRegister? <==> !ConfirmInvalid(form))
      ensures msg.RegisterCancelled? ==> form == old(form) && effect == GoTo(Routes.Home)
      ensures msg.RegisterFetched? ==> form == old(form)
      ensures msg.RegisterFetched? && msg.result.Ok? ==> effect == SaveUserAndGoTo(msg.result.value, Routes.GiftIdeas)
      ensures msg.RegisterFetched? && msg.result.Err? ==> effect == NoEffect
    {
      effect := NoEffect;
      match msg
      case FirstNameChanged(first_name) => form := form.(first_name := first_name);
      case LastNameChanged(last_name) => form := form.(last_name := last_name);
      case EmailChanged(email) => form := form.(email := email);
      case PhoneChanged(phone) => form := form.(phone := phone);
      case PasswordChanged(password) => form := form.(password := password);
      case ConfirmPasswordChanged(confirm_password) => form := form.(confirm_password := confirm_password);
      case RegisterCancelled => effect := GoTo(Routes.Home);
      case RegisterSubmitted => effect := Submit(form);
      case RegisterFetched(Ok(user)) => effect := SaveUserAndGoTo(user, Routes.GiftIdeas);
      case RegisterFetched(Err(_)) =>
    }
  }
}
