/** The parts of an ASP.NET Core HttpContext the middleware reads and
    writes: request path, headers and query string, response status,
    content type and body, and the authenticated user. */
module Http {
  import opened Wrappers
  import opened Text

  datatype Claim = Claim(claimType: string, value: string)

  /** A ClaimsIdentity; it is authenticated when it has an authentication type. */
  datatype Identity = Identity(claims: seq<Claim>, authenticationType: Option<string>)
  {
    predicate IsAuthenticated()
    {
      authenticationType.Some? && authenticationType.value != []
    }
  }

  /** The value of the first claim of the given type, if any. */
  function FindClaim(claims: seq<Claim>, claimType: string): (r: Option<string>)
    ensures r.Some? <==> exists c :: c in claims && c.claimType == claimType
    ensures r.Some? ==> Claim(claimType, r.value) in claims
  {
    if claims == [] then None
    else if claims[0].claimType == claimType then Some(claims[0].value)
    else FindClaim(claims[1..], claimType)
  }

  /** A ClaimsPrincipal; its first identity is the primary one. */
  datatype Principal = Principal(identities: seq<Identity>)
  {
    /** ClaimsPrincipal.FindFirst: identities in order, claims in order. */
    function FindFirst(claimType: string): Option<string>
    {
      FindIn(identities, claimType)
    }

    predicate IsAuthenticated()
    {
      |identities| > 0 && identities[0].IsAuthenticated()
    }
  }

  function FindIn(identities: seq<Identity>, claimType: string): Option<string>
  {
    if identities == [] then None
    else match FindClaim(identities[0].claims, claimType)
      case Some(v) => Some(v)
      case None => FindIn(identities[1..], claimType)
  }

  /** A header or query collection: names with their values. The names
      are compared ignoring case, as ASP.NET Core does. */
  type Collection = seq<(string, seq<string>)>

  /** TryGetValue: the values stored under the first entry whose name
      equals the given one ignoring case. */
  function TryGetValue(entries: Collection, name: string): (r: Option<seq<string>>)
    ensures r.None? <==> forall e :: e in entries ==> Lower(e.0) != Lower(name)
    ensures r.Some? ==> exists e :: e in entries && Lower(e.0) == Lower(name) && e.1 == r.value
  {
    if entries == [] then None
    else if EqualsIgnoreCase(entries[0].0, name) then
      EqualsIgnoreCaseIsLowerEquality(entries[0].0, name);
      Some(entries[0].1)
    else
      EqualsIgnoreCaseIsLowerEquality(entries[0].0, name);
      TryGetValue(entries[1..], name)
  }

  /** StringValues.FirstOrDefault. */
  function FirstOrDefault(values: seq<string>): (r: Option<string>)
    ensures r.None? <==> values == []
    ensures r.Some? ==> r.value == values[0]
  {
    if values == [] then None else Some(values[0])
  }

  /** PathString.StartsWithSegments: the path begins with the segment,
      ignoring case, and ends there or continues with a '/'. Equivalently,
      the lower-cased path begins with the lower-cased segment at a segment
      boundary. */
  function StartsWithSegments(path: string, segment: string): (b: bool)
    ensures b <==> |segment| <= |path| && Lower(path)[..|segment|] == Lower(segment)
                   && (|path| == |segment| || path[|segment|] == '/')
  {
    if |segment| <= |path| then
      EqualsIgnoreCaseIsLowerEquality(path[..|segment|], segment);
      LowerPrefix(path, |segment|);
      EqualsIgnoreCase(path[..|segment|], segment) && (|path| == |segment| || path[|segment|] == '/')
    else false
  }

  /** Lower-casing commutes with taking a prefix. */
  lemma LowerPrefix(s: string, k: nat)
    requires k <= |s|
    ensures Lower(s[..k]) == Lower(s)[..k]
  {
    forall i | 0 <= i < k
      ensures Lower(s[..k])[i] == Lower(s)[..k][i]
    {
    }
  }

  /** Whether a path starts with a segment does not depend on the path's
      letter case. */
  lemma SegmentsIgnoreCase(path: string, path': string, segment: string)
    requires Lower(path) == Lower(path')
    ensures StartsWithSegments(path, segment) == StartsWithSegments(path', segment)
  {
    var k := |segment|;
    assert |path| == |Lower(path)| == |path'|;
    if k < |path| {
      assert LowerChar(path[k]) == Lower(path)[k] == LowerChar(path'[k]);
      assert path[k] == '/' <==> LowerChar(path[k]) == '/';
      assert path'[k] == '/' <==> LowerChar(path'[k]) == '/';
    }
  }

  /** One differing letter at the same place rules a segment out. */
  lemma NotSegmentAt(path: string, segment: string, i: nat)
    requires i < |segment| <= |path| && LowerChar(path[i]) != LowerChar(segment[i])
    ensures !StartsWithSegments(path, segment)
  {
    EqualsIgnoreCaseIsLowerEquality(path[..|segment|], segment);
    assert Lower(path[..|segment|])[i] != Lower(segment)[i];
  }

  /** What a middleware writes to the response body. */
  datatype Written =
    | Text(text: string)
      /** the JSON object {"errorCode": …, "message": …} */
    | ErrorJson(errorCode: string, message: string)

  class HttpContext {
    const path: string
    const headers: Collection
    const query: Collection
    var statusCode: int
    var contentType: Option<string>
    var body: seq<Written>
    /** The authenticated user; None is the anonymous principal. */
    var user: Option<Principal>
    /** How many times the next component of the pipeline has run. */
    var nextCalls: nat

    constructor (path: string, headers: Collection, query: Collection)
      ensures this.path == path && this.headers == headers && this.query == query
      ensures statusCode == 200 && contentType == None && body == [] && user == None && nextCalls == 0
    {
      this.path := path;
      this.headers := headers;
      this.query := query;
      statusCode := 200;
      contentType := None;
      body := [];
      user := None;
      nextCalls := 0;
    }

    /** Hands the request on to the next component of the pipeline. */
    method Next()
      modifies this
      ensures nextCalls == old(nextCalls) + 1
      ensures statusCode == old(statusCode) && contentType == old(contentType)
      ensures body == old(body) && user == old(user)
    {
      nextCalls := nextCalls + 1;
    }
  }
}
