/** The user record as far as the listing uses it: the three searched
    fields, the key that identifies a card, and the gender the server-side
    filter selects on. */
module Users {

  datatype Gender = Male | Female

  datatype User = User(
    first: string,
    last: string,
    email: string,
    username: string,
    uuid: string,
    gender: Gender)

  /** The full name as the search sees it: first and last joined by one space. */
  function FullName(u: User): string {
    u.first + " " + u.last
  }
}
