/** The request-header access that the rate-limit and the authorization
    middleware share. A header is a map from field name to its first value;
    the canonicalization of field names is not modelled. */
module Http {

  /** Request or response header fields, by name. */
  type Header = map<string, string>

  /** http.Header.Get: a present field's value; an absent field reads as "". */
  function HeaderGet(h: Header, name: string): (v: string)
    ensures name in h ==> v == h[name]
    ensures name !in h ==> v == ""
  {
    if name in h then h[name] else ""
  }
}
