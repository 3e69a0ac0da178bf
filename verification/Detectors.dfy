/** The kinds of sensitive data and the names they are reported under. */
module Detectors {
  datatype DetectorKind =
    | Email | Ip | Jwt | BearerToken | ApiKey | Cookie | CreditCard | Iban | UrlSensitiveParams

  function AsStr(kind: DetectorKind): string {
    match kind
    case Email => "email"
    case Ip => "ip"
    case Jwt => "jwt"
    case BearerToken => "bearer_token"
    case ApiKey => "api_key"
    case Cookie => "cookie"
    case CreditCard => "credit_card"
    case Iban => "iban"
    case UrlSensitiveParams => "url_sensitive_params"
  }

  /** Counting by kind is counting by name. */
  lemma NamesAreDistinct(a: DetectorKind, b: DetectorKind)
    ensures AsStr(a) == AsStr(b) <==> a == b
  {
    var x, y := AsStr(a), AsStr(b);
    if |x| == |y| && |x| > 2 && x[2] == y[2] {
      assert x[0] == y[0] ==> a == b;
    }
  }
}
