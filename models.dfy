/**
 * The server's entity records (one per table row, or per row to insert) and the
 * conversions between them and the shared request and response records.
 */
module Models {
  import opened Prelude
  import opened Shared

  datatype User = User(
    id: int,
    email: string,
    password: string,
    first_name: Option<string>,
    last_name: Option<string>,
    phone: Option<string>)

  /** A user row before the store assigns its id; also the changeset of a user update. */
  datatype NewUser = NewUser(
    first_name: Option<string>,
    last_name: Option<string>,
    email: string,
    phone: Option<string>,
    password: string)

  datatype Destination = Destination(
    id: int,
    name: string,
    street: string,
    city: string,
    state: string,
    postal_code: string)

  datatype NewDestination = NewDestination(
    name: string,
    street: string,
    city: string,
    state: string,
    postal_code: string)

  datatype GiftIdea = GiftIdea(
    id: int,
    title: string,
    description: Option<string>,
    price: Option<string>,
    url: Option<string>,
    date_added: Timestamp,
    date_last_modified: Timestamp,
    date_reserved: Option<Timestamp>,
    owner_id: int,
    recipient_user_id: int,
    reserved_by_user_id: Option<int>)

  datatype NewGiftIdea = NewGiftIdea(
    title: string,
    description: Option<string>,
    price: Option<string>,
    url: Option<string>,
    date_added: Timestamp,
    date_last_modified: Timestamp,
    date_reserved: Option<Timestamp>,
    owner_id: int,
    recipient_user_id: int,
    reserved_by_user_id: Option<int>)

  datatype UserDestination = UserDestination(id: int, user_id: int, destination_id: int)

  datatype NewUserDestination = NewUserDestination(user_id: int, destination_id: int)

  /** `NewUser::new`: credentials only, every optional column null. */
  function NewUserOf(email: string, password: string): (u: NewUser)
    ensures u.email == email && u.password == password
    ensures u.first_name.None? && u.last_name.None? && u.phone.None?
  {
    NewUser(None, None, email, None, password)
  }

  /** `From<RegisterRequestBody> for NewUser`. */
  function NewUserFromRegister(body: RegisterRequestBody): (u: NewUser)
    ensures u.email == body.email && u.password == body.password
    ensures u.first_name == body.first_name && u.last_name == body.last_name && u.phone == body.phone
  {
    NewUserOf(body.email, body.password).(first_name := body.first_name, last_name := body.last_name, phone := body.phone)
  }

  /** `From<LoginRequestBody> for NewUser`. */
  function NewUserFromLogin(body: LoginRequestBody): (u: NewUser)
    ensures u.email == body.email && u.password == body.password
    ensures u.first_name.None? && u.last_name.None? && u.phone.None?
  {
    NewUserOf(body.email, body.password)
  }

  /** A registration that leaves every optional field out builds the same row as a login with its credentials. */
  lemma RegisterWithoutDetailsIsLogin(email: string, password: string)
    ensures NewUserFromRegister(RegisterRequestBody(email, password, None, None, None))
         == NewUserFromLogin(LoginRequestBody(email, password))
  {
  }

  /** `From<User> for MinimalUserInfo`. */
  function MinimalInfo(u: User): (m: MinimalUserInfo)
    ensures m.id == u.id && m.email == u.email
    ensures m.first_name == u.first_name && m.last_name == u.last_name && m.phone == u.phone
  {
    MinimalUserInfo(u.id, u.email, u.first_name, u.last_name, u.phone)
  }

  /** The minimal info drops the password and nothing else: two users share it exactly when they differ at most in password. */
  lemma MinimalInfoDropsOnlyPassword(u: User, v: User)
    ensures MinimalInfo(u) == MinimalInfo(v) <==> u.(password := v.password) == v
  {
  }

  /** `From<GiftIdea> for GiftIdeaResponseBody`. */
  function ToResponse(g: GiftIdea): (r: GiftIdeaResponseBody)
    ensures r.id == g.id && r.title == g.title
    ensures r.description == g.description && r.price == g.price && r.url == g.url
    ensures r.owner_id == g.owner_id && r.recipient_user_id == g.recipient_user_id
    ensures r.reserved_by_user_id == g.reserved_by_user_id
  {
    GiftIdeaResponseBody(g.id, g.title, g.description, g.price, g.url, g.owner_id, g.recipient_user_id, g.reserved_by_user_id)
  }

  /** The response drops the three dates and nothing else. */
  lemma ResponseDropsOnlyDates(g: GiftIdea, h: GiftIdea)
    ensures ToResponse(g) == ToResponse(h) <==>
            g.(date_added := h.date_added, date_last_modified := h.date_last_modified, date_reserved := h.date_reserved) == h
  {
  }

  /**
   * `NewGiftIdea::new`: an unreserved idea with no details. `added` and `modified` are the
   * two readings of the clock the constructor takes.
   */
  function NewGiftIdeaOf(title: string, owner_id: int, recipient_user_id: int, added: Timestamp, modified: Timestamp): (g: NewGiftIdea)
    ensures g.title == title && g.owner_id == owner_id && g.recipient_user_id == recipient_user_id
    ensures g.description.None? && g.price.None? && g.url.None?
    ensures g.date_added == added && g.date_last_modified == modified
    ensures g.reserved_by_user_id.None? && g.date_reserved.None?
  {
    NewGiftIdea(title, None, None, None, added, modified, None, owner_id, recipient_user_id, None)
  }

  /** `From<GiftIdeaRequestBody> for NewGiftIdea`. */
  function NewGiftIdeaFromRequest(body: GiftIdeaRequestBody, added: Timestamp, modified: Timestamp): (g: NewGiftIdea)
    ensures g.title == body.title && g.owner_id == body.owner_id && g.recipient_user_id == body.recipient_user_id
    ensures g.description == body.description && g.price == body.price && g.url == body.url
    ensures g.reserved_by_user_id.None? && g.date_reserved.None?
  {
    NewGiftIdeaOf(body.title, body.owner_id, body.recipient_user_id, added, modified)
      .(description := body.description, price := body.price, url := body.url)
  }

  /** `NewDestination::new`. */
  function NewDestinationOf(name: string, street: string, city: string, state: string, postal_code: string): (d: NewDestination)
    ensures d.name == name && d.street == street && d.city == city && d.state == state && d.postal_code == postal_code
  {
    NewDestination(name, street, city, state, postal_code)
  }

  /** `NewUserDestination::new`. */
  function NewUserDestinationOf(user_id: int, destination_id: int): (d: NewUserDestination)
    ensures d.user_id == user_id && d.destination_id == destination_id
  {
    NewUserDestination(user_id, destination_id)
  }
}
