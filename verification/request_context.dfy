/**
 * RequestContext (src/Ignite/Routing/RequestContext.php): the request facts
 * the matcher and the generator read. The method is kept upper-case and the
 * scheme lower-case by the constructor and by their setters.
 *
 * Deviation from the code as written: line 98 stores the HTTPS port into
 * `httpPort`; `SetHttpsPort` stores it into `httpsPort`, the field its name
 * and its getter refer to.
 */
module RoutingContext {
  import opened Wrappers
  import opened Strings

  class RequestContext {
    var baseUrl: string
    var httpMethod: string
    var host: string
    var scheme: string
    var httpPort: int
    var httpsPort: int
    /** Parameter values; a parameter stored as null is kept as `None`. */
    var parameters: map<string, Option<string>>

    /** The normalisation every public operation keeps. */
    ghost predicate Valid()
      reads this
    {
      httpMethod == Upper(httpMethod) && scheme == Lower(scheme)
    }

    constructor(baseUrl: string, httpMethod: string, host: string, scheme: string, httpPort: int, httpsPort: int)
      ensures Valid()
      ensures this.baseUrl == baseUrl && this.httpMethod == Upper(httpMethod) && this.host == host
      ensures this.scheme == Lower(scheme) && this.httpPort == httpPort && this.httpsPort == httpsPort
      ensures this.parameters == map[]
    {
      this.baseUrl := baseUrl;
      this.httpMethod := Upper(httpMethod);
      this.host := host;
      this.scheme := Lower(scheme);
      this.httpPort := httpPort;
      this.httpsPort := httpsPort;
      this.parameters := map[];
      UpperIdempotent(httpMethod);
      LowerIdempotent(scheme);
    }

    /** The constructor with every argument left at its default. */
    constructor Default()
      ensures Valid()
      ensures baseUrl == "" && httpMethod == "GET" && host == "localhost" && scheme == "http"
      ensures httpPort == 80 && httpsPort == 443 && parameters == map[]
    {
      baseUrl := "";
      httpMethod := "GET";
      host := "localhost";
      scheme := "http";
      httpPort := 80;
      httpsPort := 443;
      parameters := map[];
    }

    method SetBaseUrl(baseUrl: string)
      modifies this
      requires Valid()
      ensures Valid()
      ensures this.baseUrl == baseUrl
      ensures httpMethod == old(httpMethod) && host == old(host) && scheme == old(scheme)
      ensures httpPort == old(httpPort) && httpsPort == old(httpsPort) && parameters == old(parameters)
    {
      this.baseUrl := baseUrl;
    }

    method SetMethod(httpMethod: string)
      modifies this
      requires Valid()
      ensures Valid()
      ensures this.httpMethod == Upper(httpMethod)
      ensures baseUrl == old(baseUrl) && host == old(host) && scheme == old(scheme)
      ensures httpPort == old(httpPort) && httpsPort == old(httpsPort) && parameters == old(parameters)
    {
      this.httpMethod := Upper(httpMethod);
      UpperIdempotent(httpMethod);
    }

    method SetHost(host: string)
      modifies this
      requires Valid()
      ensures Valid()
      ensures this.host == host
      ensures baseUrl == old(baseUrl) && httpMethod == old(httpMethod) && scheme == old(scheme)
      ensures httpPort == old(httpPort) && httpsPort == old(httpsPort) && parameters == old(parameters)
    {
      this.host := host;
    }

    /** The scheme is stored lower-cased, so `HTTPS` makes the context secure. */
    method SetScheme(scheme: string)
      modifies this
      requires Valid()
      ensures Valid()
      ensures this.scheme == Lower(scheme)
      ensures IsSecure() <==> Lower(scheme) == "https"
      ensures baseUrl == old(baseUrl) && httpMethod == old(httpMethod) && host == old(host)
      ensures httpPort == old(httpPort) && httpsPort == old(httpsPort) && parameters == old(parameters)
    {
      this.scheme := Lower(scheme);
      LowerIdempotent(scheme);
    }

    method SetHttpPort(httpPort: int)
      modifies this
      requires Valid()
      ensures Valid()
      ensures this.httpPort == httpPort
      ensures baseUrl == old(baseUrl) && httpMethod == old(httpMethod) && host == old(host) && scheme == old(scheme)
      ensures httpsPort == old(httpsPort) && parameters == old(parameters)
    {
      this.httpPort := httpPort;
    }

    method SetHttpsPort(httpsPort: int)
      modifies this
      requires Valid()
      ensures Valid()
      ensures this.httpsPort == httpsPort
      ensures baseUrl == old(baseUrl) && httpMethod == old(httpMethod) && host == old(host) && scheme == old(scheme)
      ensures httpPort == old(httpPort) && parameters == old(parameters)
    {
      this.httpsPort := httpsPort;
    }

    /** setParameters replaces the whole map. */
    method SetParameters(parameters: map<string, Option<string>>)
      modifies this
      requires Valid()
      ensures Valid()
      ensures this.parameters == parameters
      ensures baseUrl == old(baseUrl) && httpMethod == old(httpMethod) && host == old(host) && scheme == old(scheme)
      ensures httpPort == old(httpPort) && httpsPort == old(httpsPort)
    {
      this.parameters := parameters;
    }

    /** `parameters[name] ?? null`: absent names and stored nulls both read as None. */
    function GetParameter(name: string): (r: Option<string>)
      reads this
      ensures r.Some? <==> name in parameters && parameters[name].Some?
      ensures r.Some? ==> parameters[name] == r
    {
      if name in parameters then parameters[name] else None
    }

    /** array_key_exists: a stored null still counts. */
    predicate HasParameter(name: string)
      reads this
      ensures !HasParameter(name) ==> GetParameter(name).None?
      ensures HasParameter(name) ==> GetParameter(name) == parameters[name]
    {
      name in parameters
    }

    method SetParameter(name: string, parameter: Option<string>)
      modifies this
      requires Valid()
      ensures Valid()
      ensures HasParameter(name) && GetParameter(name) == parameter
      ensures forall n :: n != name ==> (n in parameters <==> n in old(parameters))
      ensures forall n :: n != name && n in parameters ==> parameters[n] == old(parameters)[n]
      ensures baseUrl == old(baseUrl) && httpMethod == old(httpMethod) && host == old(host) && scheme == old(scheme)
      ensures httpPort == old(httpPort) && httpsPort == old(httpsPort)
    {
      parameters := parameters[name := parameter];
    }

    /** isSecure: a strict comparison with `https`; the setters keep the scheme lower-case. */
    predicate IsSecure()
      reads this
      ensures IsSecure() <==> scheme == "https"
      ensures IsSecure() ==> Lower(scheme) == scheme
    {
      scheme == "https"
    }
  }
}
