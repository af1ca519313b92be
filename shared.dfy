/**
 * The request and response records exchanged between the client and the server
 * (the `shared` crate). `MinimalUserInfo`, `GiftIdeaRequestBody` and
 * `GiftIdeaResponseBody` are taken from the fields their users read and write.
 */
module Shared {
  import opened Prelude

  datatype RegisterRequestBody = RegisterRequestBody(
    email: string,
    password: string,
    first_name: Option<string>,
    last_name: Option<string>,
    phone: Option<string>)

  datatype LoginRequestBody = LoginRequestBody(email: string, password: string)

  /** What the user list exposes about a user: everything but the password. */
  datatype MinimalUserInfo = MinimalUserInfo(
    id: int,
    email: string,
    first_name: Option<string>,
    last_name: Option<string>,
    phone: Option<string>)

  datatype GiftIdeaRequestBody = GiftIdeaRequestBody(
    title: string,
    description: Option<string>,
    price: Option<string>,
    url: Option<string>,
    owner_id: int,
    recipient_user_id: int)

  /** A gift idea as sent back by reserve and unreserve: the row without its three dates. */
  datatype GiftIdeaResponseBody = GiftIdeaResponseBody(
    id: int,
    title: string,
    description: Option<string>,
    price: Option<string>,
    url: Option<string>,
    owner_id: int,
    recipient_user_id: int,
    reserved_by_user_id: Option<int>)
}
