/** Who a connection, a registration or a buffered message belongs to. */
module Sessions {

  type Id = string

  const NO_USER: Id := ""

  /** An instance of a user. */
  datatype Session = Session(user: Id, instance: Id)

  /** A session without a user ID. */
  predicate Anonymous(a: Session) { a.user == NO_USER }
}
