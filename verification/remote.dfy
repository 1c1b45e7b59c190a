/**
 * What the pages see of their network calls. Every `fetch` is an input to the
 * model: it answered with an `ok` status and a decoded body, answered with a status
 * outside 200-299, or its promise was rejected (no connection, or a body that is
 * not valid JSON), carrying the error's message.
 */
module Remote {
  import opened Wrappers
  import JsText

  datatype Response<T> = Ok(body: T) | NotOk(status: int) | Rejected(message: string)

  /** A decoded JSON document: an array, or any single value. */
  datatype Json<T> = JsonArray(items: seq<T>) | JsonValue(item: T)

  /** `Array.isArray(content) ? content : [content]`. */
  function AsList<T>(content: Json<T>): (r: seq<T>)
    ensures content.JsonValue? ==> r == [content.item]
    ensures content.JsonArray? ==> r == content.items
  {
    match content
    case JsonArray(items) => items
    case JsonValue(item) => [item]
  }

  /** Normalising an already normalised document changes nothing. */
  lemma AsListIdempotent<T>(content: Json<T>)
    ensures AsList(JsonArray(AsList(content))) == AsList(content)
  {
  }

  /** `catch (error) { throw new Error(prefix + error.message) }`. */
  function Rethrow<T>(prefix: string, r: Result<T>): (w: Result<T>)
    ensures w.Success? <==> r.Success?
    ensures w.Success? ==> w.value == r.value
    ensures w.Failure? ==> JsText.StartsWith(w.error, prefix) && w.error[|prefix|..] == r.error
  {
    match r
    case Success(v) => Success(v)
    case Failure(e) => Failure(prefix + e)
  }

  const TokenPrefix: string := "Error fetching GitHub token: "

  /** `fetchGitHubToken` without a cached token: the `githubToken` field of the answer. */
  function TokenResult(response: Response<string>): (r: Result<string>)
    ensures r.Success? <==> response.Ok?
    ensures r.Success? ==> r.value == response.body
    ensures response.NotOk? ==> r.error == TokenPrefix + "Failed to fetch GitHub token"
    ensures response.Rejected? ==> r.error == TokenPrefix + response.message
  {
    var inner := match response
      case Ok(token) => Success(token)
      case NotOk(_) => Failure("Failed to fetch GitHub token")
      case Rejected(message) => Failure(message);
    Rethrow(TokenPrefix, inner)
  }
}
