/** The request and response shapes of the registration and login endpoints. */
module Requests {

  datatype Option<+T> = None | Some(value: T)

  /** A JSON object body, reduced to its string-valued keys. */
  type Payload = map<string, string>

  /** The status code and the `message` field of a JSON response. */
  datatype Response = Response(status: nat, message: string)

  const MissingData := Response(400, "Missing data")
  const UsernameTaken := Response(400, "Username already exists")
  const EmailTaken := Response(400, "Email already exists")
  const Registered := Response(201, "User registered successfully")
  const InvalidCredentials := Response(401, "Invalid credentials")
  const LoggedIn := Response(200, "Login successful")

  /** The guard `data and k in data for every required k`: None (what
      `get_json()` gives for a JSON `null` body) and an empty object are both
      falsy, and every required key must be present. */
  predicate Provides(data: Option<Payload>, keys: set<string>)
  {
    data.Some? && data.value != map[] && keys <= data.value.Keys
  }
}
