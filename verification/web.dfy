/**
  Shared vocabulary of the Spring MVC controllers: optional values (Java's
  `null`), the string and number attributes a handler puts in its `Model` or
  flashes through `RedirectAttributes`, the handler's response, and the
  password encoder, which is kept uninterpreted.
 */
module Web {

  /** A Java reference that may be `null`. */
  datatype Option<+T> = None | Some(value: T)

  /** A model or flash attribute. Object-valued attributes (DTOs, lists of
      countries, carts) are not recorded; only texts and counts are. */
  datatype Attr = Text(text: string) | Count(count: int)

  /** What a handler produces: a view name (a `redirect:` prefix included)
      with its model and flash attributes, or an uncaught exception. */
  datatype Response =
    | Page(view: string, model: map<string, Attr>, flash: map<string, Attr>)
    | ServerError

  const LoginRedirect: string := "redirect:/login"

  /** The response of every handler that finds no authenticated principal. */
  function ToLogin(): Response
  {
    Page(LoginRedirect, map[], map[])
  }

  /** Spring Security's `PasswordEncoder`, left uninterpreted: `encode` hashes a
      raw password, `matches(raw, encoded)` checks one against a hash, which
      may be `null`. */
  datatype PasswordEncoder = PasswordEncoder(encode: string -> string, matches: (string, Option<string>) -> bool)

  /** Where, if anywhere, a collaborator called inside a handler's `try`
      block throws: the username lookup or the save. */
  datatype Fault = NoFault | LookupThrows | SaveThrows
}
