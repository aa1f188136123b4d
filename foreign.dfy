/** The code the backend calls but does not own: Django's address and
    charset helpers, the standard library's `parseaddr`, `mimetypes`, string
    encoding and JSON printing, and the HTTP response returned by the
    Mailjet client. Each helper is a parameter whose behaviour is left open. */
module Foreign {
  import opened Values

  /** `django.core.mail.message.DEFAULT_ATTACHMENT_MIME_TYPE`. */
  const DEFAULT_ATTACHMENT_MIME_TYPE: string := "application/octet-stream"

  /** The foreign helpers, read as functions of their arguments. */
  datatype Helpers = Helpers(
    /** `sanitize_address(addr, encoding)` */
    sanitizeAddress: (string, Option<string>) -> string,
    /** `email.utils.parseaddr(s)`: the pair (realname, email address) */
    parseaddr: string -> (string, string),
    /** the type part of `mimetypes.guess_type(name)` */
    guessType: string -> Option<string>,
    /** `text.encode(charset)` */
    encode: (string, string) -> seq<byte>,
    /** `json.dumps(value, indent=2)` */
    dumps: Value -> string,
    /** `str(value)` for a value that is not a string */
    display: Value -> string,
    /** `settings.DEFAULT_CHARSET` */
    defaultCharset: string)

  /** What `response.json()` does: returns a parsed body or raises `ValueError`. */
  datatype Body = Parsed(json: Value) | NotJson

  /** An HTTP response of the Mailjet client; `text` is `None` for a response
      object without that attribute. */
  datatype Response = Response(statusCode: int, reason: string, body: Body, text: Option<string>)
}
