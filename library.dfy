/**
 * The library calls the ledger depends on, kept uninterpreted. Each is a
 * function value held by the ledger, so every use within one run refers to the
 * same function: hashing is deterministic by construction and nothing else is
 * assumed about it.
 */
module Library {

  /** A decoded JSON value, enough for the dictionaries the ledger hashes. An object is a map,
      so two dictionaries with the same entries are one value, as json.dumps(sort_keys=True) sees them. */
  datatype Json =
    | JInt(i: int)
    | JFloat(r: real)
    | JString(s: string)
    | JArray(items: seq<Json>)
    | JObject(members: map<string, Json>)

  datatype Primitives = Primitives(
    /** hashlib.sha256(text.encode()).hexdigest(); every text hashed here is ASCII, so encoding is the identity */
    sha256Hex: string -> string,
    /** json.dumps(value, sort_keys=True) */
    jsonDumps: Json -> string,
    /** urlparse(address).netloc */
    urlNetloc: string -> string
  )

  /** Python's s[:n] for n >= 0: the whole string when it is shorter than n. */
  function Head(s: string, n: nat): (r: string)
    ensures |r| == if |s| < n then |s| else n
    ensures r <= s
  {
    if |s| <= n then s else s[..n]
  }
}
