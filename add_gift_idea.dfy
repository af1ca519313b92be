/**
 * The add-gift-idea page: the form, the request it becomes, and the update that
 * edits the form and submits it once a title and a recipient are chosen.
 */
module AddGiftIdeaPage {
  import opened Prelude
  import opened Shared
  import opened Session
  import opened App
  import Routes
  import IntParse

  datatype Form = Form(
    title: string,
    description: string,
    price: string,
    url: string,
    owner_id: int,
    recipient_user_id: int)

  /** `Form::default()`: empty texts, owner 0, and recipient 0, the "Select One" choice. */
  const DefaultForm := Form("", "", "", "", 0, 0)

  /** `From<Form> for GiftIdeaRequestBody`: the optional texts are always sent, even when empty. */
  function ToRequest(form: Form): (body: GiftIdeaRequestBody)
    ensures body.title == form.title && body.owner_id == form.owner_id
    ensures body.recipient_user_id == form.recipient_user_id
    ensures body.description == Some(form.description) && body.price == Some(form.price) && body.url == Some(form.url)
  {
    GiftIdeaRequestBody(form.title, Some(form.description), Some(form.price), Some(form.url), form.owner_id, form.recipient_user_id)
  }

  /** The values of the recipient select: "0" for "Select One", then each user's id as text. */
  function RecipientValues(recipients: seq<MinimalUserInfo>): (values: seq<string>)
    ensures |values| == |recipients| + 1 && values[0] == "0"
    ensures forall i | 0 <= i < |recipients| :: values[i + 1] == IntParse.ToDecimal(recipients[i].id)
  {
    ["0"] + seq(|recipients|, i requires 0 <= i < |recipients| => IntParse.ToDecimal(recipients[i].id))
  }

  /**
   * Every value the select offers parses, so choosing one never panics, and it parses
   * to the chosen user's id (or to 0 for "Select One").
   */
  lemma RecipientValuesParse(recipients: seq<MinimalUserInfo>)
    requires forall i | 0 <= i < |recipients| :: IntParse.I32_MIN <= recipients[i].id <= IntParse.I32_MAX
    ensures IntParse.ParseI32(RecipientValues(recipients)[0]) == Some(0)
    ensures forall i | 0 <= i < |recipients| :: IntParse.ParseI32(RecipientValues(recipients)[i + 1]) == Some(recipients[i].id)
  {
    var values := RecipientValues(recipients);
    IntParse.ParseToDecimal(0);
    assert IntParse.ToDecimal(0) == "0" == values[0];
    forall i | 0 <= i < |recipients|
      ensures IntParse.ParseI32(values[i + 1]) == Some(recipients[i].id)
    {
      assert values[i + 1] == IntParse.ToDecimal(recipients[i].id);
      IntParse.ParseToDecimal(recipients[i].id);
    }
  }

  datatype Msg =
    | TitleChanged(title: string)
    | DescriptionChanged(description: string)
    | PriceChanged(price: string)
    | URLChanged(url: string)
    | RecipientChanged(recipient: string)
    | AddGiftIdeaSubmitted
    | AddGiftIdeaFetched(result: Result<GiftIdeaResponseBody, FetchError>)
    | AddGiftIdeaCancelled
    | RecipientNamesLoaded(loaded: Result<seq<MinimalUserInfo>, FetchError>)

  /** What an update asks of the outside world. */
  datatype Effect =
    | NoEffect
    | PostGiftIdea(body: GiftIdeaRequestBody)   // POST /v1/gifts/add
    | FetchRecipients                          // GET /v1/users/find_all
    | GoTo(route: Routes.Route)

  /**
   * The guard of the submit branch: a request goes out only when the body it would
   * carry has a title and names a recipient other than "Select One".
   */
  function CanSubmit(form: Form): (ok: bool)
    ensures ok <==> ToRequest(form).title != "" && ToRequest(form).recipient_user_id != 0
  {
    form.title != "" && form.recipient_user_id != 0
  }

  /** The empty form cannot be submitted, whatever its owner. */
  lemma DefaultFormBlocked(owner_id: int)
    ensures !CanSubmit(DefaultForm.(owner_id := owner_id))
  {
  }

  class Model {
    var session: Session
    var recipients: seq<MinimalUserInfo>
    var form: Form

    constructor (session: Session, recipients: seq<MinimalUserInfo>, form: Form)
      ensures this.session == session && this.recipients == recipients && this.form == form
    {
      this.session := session;
      this.recipients := recipients;
      this.form := form;
    }

    /**
     * `init`: the session comes from the user kept in local storage (`stored`), not
     * from the `session` argument, and the form's owner is that user, which must exist
     * (the viewer is unwrapped). The page asks for the user list.
     */
    static method Init(session: Session, stored: Option<LoggedUser>) returns (m: Model, effect: Effect)
      requires stored.Some?
      ensures fresh(m)
      ensures m.session == New(stored) && m.recipients == []
      ensures m.form == DefaultForm.(owner_id := stored.value.id)
      ensures effect == FetchRecipients
    {
      var current := New(stored);
      effect := FetchRecipients;
      var form := DefaultForm;
      form := form.(owner_id := Viewer(current).value.id);
      m := new Model(current, [], form);
    }

    /** `sink`: a new session replaces the page's one and sends the user to Login; other messages are ignored. */
    method Sink(g: GMsg) returns (effect: Effect)
      modifies this
      ensures form == old(form)
      ensures g.SessionChanged? ==> session == g.session && effect == GoTo(Routes.Login)
      ensures g.RoutePushed? ==> session == old(session) && effect == NoEffect
    {
      effect := NoEffect;
      if g.SessionChanged? {
        session := g.session;
        effect := GoTo(Routes.Login);
      }
    }

    /** `update`: the four text setters, the recipient choice, the guarded submit, cancel and the fetch replies. */
    method Update(msg: Msg) returns (effect: Effect)
      requires msg.RecipientChanged? ==> IntParse.ParseI32(msg.recipient).Some?
      modifies this
      ensures session == old(session)
      ensures !msg.RecipientNamesLoaded? ==> recipients == old(recipients)
      ensures msg.TitleChanged? ==> form == old(form).(title := msg.title) && effect == NoEffect
      ensures msg.DescriptionChanged? ==> form == old(form).(description := msg.description) && effect == NoEffect
      ensures msg.PriceChanged? ==> form == old(form).(price := msg.price) && effect == NoEffect
      ensures msg.URLChanged? ==> form == old(form).(url := msg.url) && effect == NoEffect
      ensures msg.RecipientChanged? ==>
                form == old(form).(recipient_user_id := IntParse.ParseI32(msg.recipient).value) && effect == NoEffect
      ensures msg.AddGiftIdeaSubmitted? ==> form == old(form)
      ensures msg.AddGiftIdeaSubmitted? ==> (effect.PostGiftIdea? <==> CanSubmit(form))
      ensures msg.AddGiftIdeaSubmitted? && effect.PostGiftIdea? ==> effect.body == ToRequest(form)
      ensures msg.AddGiftIdeaSubmitted? && !effect.PostGiftIdea? ==> effect == NoEffect
      ensures msg.AddGiftIdeaCancelled? ==> form == old(form) && effect == GoTo(Routes.GiftIdeas)
      ensures msg.AddGiftIdeaFetched? ==> form == old(form)
      ensures msg.AddGiftIdeaFetched? ==> effect == if msg.result.Ok? then GoTo(Routes.GiftIdeas) else NoEffect
      ensures msg.RecipientNamesLoaded? ==> form == old(form) && effect == NoEffect
      ensures msg.RecipientNamesLoaded? ==>
                recipients == if msg.loaded.Ok? then msg.loaded.value else old(recipients)
    {
      effect := NoEffect;
      match msg
      case TitleChanged(title) => form := form.(title := title);
      case DescriptionChanged(description) => form := form.(description := description);
      case PriceChanged(price) => form := form.(price := price);
      case URLChanged(url) => form := form.(url := url);
      case RecipientChanged(recipient) =>
        form := form.(recipient_user_id := IntParse.ParseI32(recipient).value);
      case AddGiftIdeaCancelled => effect := GoTo(Routes.GiftIdeas);
      case AddGiftIdeaSubmitted =>
        if CanSubmit(form) {
          effect := PostGiftIdea(ToRequest(form));
        }
      case AddGiftIdeaFetched(Ok(_)) => effect := GoTo(Routes.GiftIdeas);
      case AddGiftIdeaFetched(Err(_)) =>
      case RecipientNamesLoaded(Ok(loaded)) => recipients := loaded;
      case RecipientNamesLoaded(Err(_)) =>
    }
  }
}
