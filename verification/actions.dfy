/** The controller results the actions produce, with their HTTP status codes,
    and what the actions of both document controllers share. */
module Actions {
  import opened Wrappers
  import BaseRepo

  datatype ActionResult<T> =
    | Ok(value: T)
    | NoContent
    | BadRequest(message: Option<string>)
    /** The automatic 400 of `[ApiController]` model validation, naming the
        body's fields that failed. */
    | ValidationProblem(fields: set<string>)
    | NotFound(message: Option<string>)
    | Status(code: int, reason: string)
  {
    function Code(): int {
      match this
      case Ok(_) => 200
      case NoContent => 204
      case BadRequest(_) => 400
      case ValidationProblem(_) => 400
      case NotFound(_) => 404
      case Status(code, _) => code
    }
  }

  /** char.IsWhiteSpace: the Unicode space separators, the line and paragraph
      separators, and the controls U+0009 to U+000D, U+0085 and U+00A0. */
  predicate IsWhiteSpace(c: char) {
    || c == ' ' || ('\t' <= c <= '\r') || c == '\U{0085}' || c == '\U{00A0}'
    || c == '\U{1680}' || ('\U{2000}' <= c <= '\U{200A}') || c == '\U{2028}' || c == '\U{2029}'
    || c == '\U{202F}' || c == '\U{205F}' || c == '\U{3000}'
  }

  /** A required string in a request body fails validation: the implicit
      `[Required]` of a non-nullable string refuses null, "" and text made
      only of white space. */
  predicate MissingText(s: Option<string>) {
    s.None? || forall i :: 0 <= i < |s.value| ==> IsWhiteSpace(s.value[i])
  }

  /** DELETE api/parking_area/{id} and DELETE api/parking_fee/{id}, which are
      the same code over different stores: 404 for an unknown id; otherwise
      204 with exactly that document removed. */
  function DeleteById<T>(id: string, decode: string -> string, store: BaseRepo.Store<T>): (r: (ActionResult<T>, BaseRepo.Store<T>))
    ensures decode(id) !in store ==> r == (NotFound(None), store)
    ensures decode(id) in store ==> r.0 == NoContent && r.1.Keys == store.Keys - {decode(id)}
    ensures forall k :: k in r.1 ==> k in store && r.1[k] == store[k]
  {
    var decodedId := decode(id);
    if BaseRepo.Get(store, decodedId).None? then (NotFound(None), store)
    else
      var (deleted, remaining) := BaseRepo.Delete(store, decodedId);
      if !deleted then (NotFound(None), store) else (NoContent, remaining)
  }
}
