/** The User record of the User table and the plain snapshot it serialises to
    (server/src/db/models.ts). */
module Models {

  /** The JSON shape handed back to an authenticated caller. */
  datatype UserInfo = UserInfo(
    createdAt: string,
    email: string,
    id: string,
    name: string,
    token: string,
    updatedAt: string)

  /** One row of the User table, as materialised by a query. No code of the core
      writes a field of a User after it is built, so a User is a value. */
  datatype User = User(
    id: string,
    name: string,
    email: string,
    token: string,
    createdAt: string,
    updatedAt: string)
  {
    /** The snapshot: every field carried over unchanged. */
    function ToJson(): (r: UserInfo)
      ensures r.id == id && r.token == token
      ensures r.name == name && r.email == email
      ensures r.createdAt == createdAt && r.updatedAt == updatedAt
    {
      UserInfo(createdAt, email, id, name, token, updatedAt)
    }
  }

  /** The snapshot loses nothing: two users have the same snapshot exactly when
      they are the same record. */
  lemma ToJsonInjective(u: User, v: User)
    ensures u.ToJson() == v.ToJson() <==> u == v
  {
  }
}
