/**
 * The server bag (src/Ignite/Http/ServerContainer.php): the request's
 * `$_SERVER` entries, from which getHeaders extracts the HTTP headers and
 * the HTTP Basic credentials of section 2 of RFC 7617.
 *
 * Server values are PHP strings, that is byte strings (`ByteString`).
 * The scheme test is the code's: the authorization value must start with
 * lower-case `basic`.
 */
module ServerHeaders {
  import opened Wrappers
  import opened Strings
  import opened OrderedMaps
  import Base64

  /** A PHP string: one byte per character. */
  type ByteString = s: string | Base64.Bytes(s)

  const UserKey := "PHP_AUTH_USER"
  const PasswordKey := "PHP_AUTH_PW"
  const AuthorizationKey := "AUTHORIZATION"

  /** The server keys copied under their own name. */
  predicate ContentKey(key: string) {
    key == "CONTENT_LENGTH" || key == "CONTENT_MD5" || key == "CONTENT_TYPE"
  }

  /** The header a server key yields, if any. */
  function HeaderName(key: string): (r: Option<string>)
    ensures r.Some? <==> StartsWith(key, "HTTP_") || ContentKey(key)
    ensures StartsWith(key, "HTTP_") ==> r == Some(key[5..])
    ensures !StartsWith(key, "HTTP_") && ContentKey(key) ==> r == Some(key)
  {
    if StartsWith(key, "HTTP_") then Some(key[5..])
    else if ContentKey(key) then Some(key)
    else None
  }

  /** The (header, value) assignments the copying loop makes, in order. */
  function Sources(p: OrderedMap<ByteString>): OrderedMap<ByteString>
    decreases |p|
  {
    if |p| == 0 then []
    else
      var rest := Sources(p[..|p| - 1]);
      match HeaderName(p[|p| - 1].0)
      case None => rest
      case Some(name) => rest + [(name, p[|p| - 1].1)]
  }

  /** substr($s, 6): empty when the string is shorter. */
  function Substr6(s: string): string {
    if |s| >= 6 then s[6..] else ""
  }

  lemma {:induction false} SplitBytes(s: string, c: char)
    requires Base64.Bytes(s)
    decreases |s|
    ensures forall i :: 0 <= i < |Split(s, c)| ==> Base64.Bytes(Split(s, c)[i])
  {
    match IndexOfFrom(s, c, 0)
    case None =>
    case Some(k) =>
      SplitBytes(s[k + 1..], c);
  }

  /** The user and password carried by an authorization value, when it is basic and splits in two. */
  function BasicCredentials(authorization: string): (r: Option<(ByteString, ByteString)>)
    ensures r.Some? ==> StartsWith(authorization, "basic")
    ensures r.Some? ==> ':' !in r.value.0 && ':' !in r.value.1
    ensures r.Some? ==> r.value.0 + ":" + r.value.1 == Base64.Decode(Substr6(authorization))
  {
    if StartsWith(authorization, "basic") then
      var decoded := Base64.Decode(Substr6(authorization));
      SplitBytes(decoded, ':');
      JoinSplit(decoded, ':');
      var parts := Split(decoded, ':');
      if |parts| == 2 then
        assert Join(parts, ":") == parts[0] + ":" + parts[1];
        Some((parts[0], parts[1]))
      else None
    else None
  }

  /** HTTP_AUTHORIZATION, else REDIRECT_HTTP_AUTHORIZATION. */
  function AuthorizationValue(p: OrderedMap<ByteString>): (r: Option<ByteString>)
    ensures Lookup(p, "HTTP_AUTHORIZATION").Some? ==> r == Lookup(p, "HTTP_AUTHORIZATION")
    ensures Lookup(p, "HTTP_AUTHORIZATION").None? ==> r == Lookup(p, "REDIRECT_HTTP_AUTHORIZATION")
  {
    match Lookup(p, "HTTP_AUTHORIZATION")
    case Some(a) => Some(a)
    case None => Lookup(p, "REDIRECT_HTTP_AUTHORIZATION")
  }

  /** The credentials getHeaders records: PHP_AUTH_USER/PW when given, else a decoded basic authorization. */
  function Credentials(p: OrderedMap<ByteString>): Option<(ByteString, ByteString)> {
    match Lookup(p, UserKey)
    case Some(u) => Some((u, Lookup(p, PasswordKey).GetOr("")))
    case None =>
      match AuthorizationValue(p)
      case None => None
      case Some(a) => BasicCredentials(a)
  }

  function WithCredentials(h: OrderedMap<ByteString>, c: Option<(ByteString, ByteString)>): OrderedMap<ByteString> {
    match c
    case None => h
    case Some((u, pw)) => Put(Put(h, UserKey, u), PasswordKey, pw)
  }

  /** The value getHeaders gives AUTHORIZATION. */
  function BasicAuthorization(user: ByteString, password: ByteString): ByteString {
    "Basic " + Base64.Encode(user + ":" + password)
  }

  /** With a user set, AUTHORIZATION is rebuilt from the user and the password (empty when unset). */
  function WithAuthorization(h: OrderedMap<ByteString>): OrderedMap<ByteString> {
    match Lookup(h, UserKey)
    case None => h
    case Some(u) => Put(h, AuthorizationKey, BasicAuthorization(u, Lookup(h, PasswordKey).GetOr("")))
  }

  /** What getHeaders returns for the bag `p`. */
  function Headers(p: OrderedMap<ByteString>): OrderedMap<ByteString> {
    WithAuthorization(WithCredentials(PutAll([], Sources(p)), Credentials(p)))
  }

  class ServerContainer {
    var parameters: OrderedMap<ByteString>

    ghost predicate Valid()
      reads this
    {
      WellFormed(parameters)
    }

    constructor(parameters: OrderedMap<ByteString>)
      requires WellFormed(parameters)
      ensures Valid() && this.parameters == parameters
    {
      this.parameters := parameters;
    }

    /** getHeaders: the headers of the bag, which it leaves as it is. */
    method GetHeaders() returns (headers: OrderedMap<ByteString>)
      ensures headers == Headers(parameters)
    {
      headers := CopyHeaders(parameters);
      var credentials := ReadCredentials(parameters);
      if credentials.Some? {
        headers := Put(Put(headers, UserKey, credentials.value.0), PasswordKey, credentials.value.1);
      }
      match Lookup(headers, UserKey) {
        case Some(u) =>
          headers := Put(headers, AuthorizationKey, BasicAuthorization(u, Lookup(headers, PasswordKey).GetOr("")));
        case None =>
      }
    }

    /** The copying loop of getHeaders. */
    static method CopyHeaders(parameters: OrderedMap<ByteString>) returns (headers: OrderedMap<ByteString>)
      ensures headers == PutAll([], Sources(parameters))
    {
      headers := [];
      for i := 0 to |parameters|
        invariant headers == PutAll([], Sources(parameters[..i]))
      {
        SourcesStep(parameters, i);
        var (key, value) := parameters[i];
        if StartsWith(key, "HTTP_") {
          headers := Put(headers, key[5..], value);
        } else if ContentKey(key) {
          headers := Put(headers, key, value);
        }
      }
      assert parameters[..|parameters|] == parameters;
    }

    /** The credentials getHeaders decides on before rebuilding AUTHORIZATION. */
    static method ReadCredentials(parameters: OrderedMap<ByteString>) returns (credentials: Option<(ByteString, ByteString)>)
      ensures credentials == Credentials(parameters)
    {
      credentials := None;
      match Lookup(parameters, UserKey) {
        case Some(u) =>
          credentials := Some((u, Lookup(parameters, PasswordKey).GetOr("")));
        case None =>
          var authorization: Option<ByteString> := None;
          match Lookup(parameters, "HTTP_AUTHORIZATION") {
            case Some(a) => authorization := Some(a);
            case None => authorization := Lookup(parameters, "REDIRECT_HTTP_AUTHORIZATION");
          }
          if authorization.Some? {
            credentials := BasicCredentials(authorization.value);
          }
      }
    }
  }

  lemma SourcesStep(p: OrderedMap<ByteString>, i: nat)
    requires i < |p|
    ensures var before := PutAll([], Sources(p[..i]));
      PutAll([], Sources(p[..i + 1])) == match HeaderName(p[i].0)
        case None => before
        case Some(name) => Put(before, name, p[i].1)
  {
    assert p[..i + 1][..i] == p[..i];
    var rest := Sources(p[..i]);
    match HeaderName(p[i].0)
    case None =>
    case Some(name) =>
      assert (rest + [(name, p[i].1)])[..|rest|] == rest;
  }

  /** The headers the loop produces: one per server key that yields a header name. */
  lemma {:induction false} SourcesKeys(p: OrderedMap<ByteString>, k: string)
    decreases |p|
    ensures k in Keys(Sources(p)) <==> exists i :: 0 <= i < |p| && HeaderName(p[i].0) == Some(k)
  {
    if |p| > 0 {
      var init := p[..|p| - 1];
      SourcesKeys(init, k);
      var rest := Sources(init);
      match HeaderName(p[|p| - 1].0)
      case None =>
      case Some(name) =>
        assert Keys(rest + [(name, p[|p| - 1].1)]) == Keys(rest) + [name];
      if exists i :: 0 <= i < |p| && HeaderName(p[i].0) == Some(k) {
        var i :| 0 <= i < |p| && HeaderName(p[i].0) == Some(k);
        if i < |p| - 1 {
          assert init[i] == p[i];
        }
      }
    }
  }

  lemma CredentialsLeaveOthers(h: OrderedMap<ByteString>, c: Option<(ByteString, ByteString)>, k: string)
    requires k != UserKey && k != PasswordKey
    ensures Lookup(WithCredentials(h, c), k) == Lookup(h, k)
  {
    match c
    case None =>
    case Some((u, pw)) =>
      PutLookup(h, UserKey, u, k);
      PutLookup(Put(h, UserKey, u), PasswordKey, pw, k);
  }

  lemma AuthorizationLeavesOthers(h: OrderedMap<ByteString>, k: string)
    requires k != AuthorizationKey
    ensures Lookup(WithAuthorization(h), k) == Lookup(h, k)
  {
    match Lookup(h, UserKey)
    case None =>
    case Some(u) =>
      PutLookup(h, AuthorizationKey, BasicAuthorization(u, Lookup(h, PasswordKey).GetOr("")), k);
  }

  /** A header that is not one of the credential headers holds the value of the last server key yielding it. */
  lemma CopiedHeader(p: OrderedMap<ByteString>, k: string)
    requires k != UserKey && k != PasswordKey && k != AuthorizationKey
    ensures Lookup(Headers(p), k) == LastValue(Sources(p), k)
    ensures Lookup(Headers(p), k).Some? <==> exists i :: 0 <= i < |p| && HeaderName(p[i].0) == Some(k)
  {
    var h0 := PutAll([], Sources(p));
    PutAllLookup([], Sources(p), k);
    CredentialsLeaveOthers(h0, Credentials(p), k);
    AuthorizationLeavesOthers(WithCredentials(h0, Credentials(p)), k);
    SourcesKeys(p, k);
  }

  /** An `HTTP_X` entry that no later entry shadows yields header X with its value. */
  lemma HttpKeyCopied(p: OrderedMap<ByteString>, name: string, v: ByteString)
    requires |p| > 0 && p[|p| - 1] == ("HTTP_" + name, v)
    requires name != UserKey && name != PasswordKey && name != AuthorizationKey
    ensures Lookup(Headers(p), name) == Some(v)
  {
    CopiedHeader(p, name);
    assert ("HTTP_" + name)[5..] == name;
  }

  /** Keys that neither start with HTTP_ nor are content keys yield nothing. */
  lemma OtherKeysIgnored(p: OrderedMap<ByteString>, key: string, v: ByteString)
    requires !StartsWith(key, "HTTP_") && !ContentKey(key)
    ensures Sources(p + [(key, v)]) == Sources(p)
  {
    assert (p + [(key, v)])[..|p|] == p;
  }

  lemma CredentialsPutLookup(h: OrderedMap<ByteString>, u: ByteString, pw: ByteString)
    ensures Lookup(WithCredentials(h, Some((u, pw))), UserKey) == Some(u)
    ensures Lookup(WithCredentials(h, Some((u, pw))), PasswordKey) == Some(pw)
  {
    PutLookup(h, UserKey, u, UserKey);
    PutLookup(Put(h, UserKey, u), PasswordKey, pw, UserKey);
    PutLookup(Put(h, UserKey, u), PasswordKey, pw, PasswordKey);
  }

  /** After the credentials are recorded, the user and password are the recorded ones and AUTHORIZATION encodes them. */
  lemma AuthorizationFromCredentials(h: OrderedMap<ByteString>, u: ByteString, pw: ByteString)
    ensures var r := WithAuthorization(WithCredentials(h, Some((u, pw))));
      && Lookup(r, UserKey) == Some(u)
      && Lookup(r, PasswordKey) == Some(pw)
      && Lookup(r, AuthorizationKey) == Some(BasicAuthorization(u, pw))
  {
    var h1 := WithCredentials(h, Some((u, pw)));
    CredentialsPutLookup(h, u, pw);
    var a := BasicAuthorization(u, pw);
    PutLookup(h1, AuthorizationKey, a, UserKey);
    PutLookup(h1, AuthorizationKey, a, PasswordKey);
    PutLookup(h1, AuthorizationKey, a, AuthorizationKey);
  }

  /** PHP_AUTH_USER in the bag is copied with its password, empty by default, and encoded into AUTHORIZATION. */
  lemma ServerUserCopied(p: OrderedMap<ByteString>, u: ByteString)
    requires Lookup(p, UserKey) == Some(u)
    ensures var pw := Lookup(p, PasswordKey).GetOr("");
      && Lookup(Headers(p), UserKey) == Some(u)
      && Lookup(Headers(p), PasswordKey) == Some(pw)
      && Lookup(Headers(p), AuthorizationKey) == Some(BasicAuthorization(u, pw))
  {
    AuthorizationFromCredentials(PutAll([], Sources(p)), u, Lookup(p, PasswordKey).GetOr(""));
  }

  /** Whenever a user ends up set, AUTHORIZATION is the basic encoding of the user and password that ended up set. */
  lemma AuthorizationMatchesUser(p: OrderedMap<ByteString>)
    ensures var h := Headers(p);
      Lookup(h, UserKey).Some? ==>
        Lookup(h, AuthorizationKey) == Some(BasicAuthorization(Lookup(h, UserKey).value, Lookup(h, PasswordKey).GetOr("")))
  {
    var h1 := WithCredentials(PutAll([], Sources(p)), Credentials(p));
    match Lookup(h1, UserKey)
    case None =>
    case Some(u) =>
      var a := BasicAuthorization(u, Lookup(h1, PasswordKey).GetOr(""));
      PutLookup(h1, AuthorizationKey, a, UserKey);
      PutLookup(h1, AuthorizationKey, a, PasswordKey);
      PutLookup(h1, AuthorizationKey, a, AuthorizationKey);
  }

  lemma SplitPair(u: string, pw: string)
    requires ':' !in u && ':' !in pw
    ensures Split(u + ":" + pw, ':') == [u, pw]
  {
    var s := u + ":" + pw;
    assert forall k :: 0 <= k < |u| ==> s[k] == u[k];
    assert IndexOfFrom(s, ':', 0) == Some(|u|) by {
      assert s[|u|] == ':';
      assert forall k :: 0 <= k < |u| ==> s[k] != ':';
      IndexOfFromFirst(s, ':', 0, |u|);
    }
    assert s[..|u|] == u && s[|u| + 1..] == pw;
    assert IndexOfFrom(pw, ':', 0).None?;
  }

  lemma {:induction false} IndexOfFromFirst(s: string, c: char, from: nat, k: nat)
    requires from <= k < |s| && s[k] == c
    requires forall j :: from <= j < k ==> s[j] != c
    decreases k - from
    ensures IndexOfFrom(s, c, from) == Some(k)
  {
    if from < k {
      IndexOfFromFirst(s, c, from + 1, k);
    }
  }

  /** A lower-case basic authorization header carrying `user:password` yields that user and password (section 2 of RFC 7617). */
  lemma BasicRoundTrip(p: OrderedMap<ByteString>, user: ByteString, password: ByteString)
    requires Lookup(p, UserKey).None?
    requires Lookup(p, "HTTP_AUTHORIZATION") == Some("basic " + Base64.Encode(user + ":" + password))
    requires ':' !in user && ':' !in password
    ensures Lookup(Headers(p), UserKey) == Some(user)
    ensures Lookup(Headers(p), PasswordKey) == Some(password)
    ensures Lookup(Headers(p), AuthorizationKey) == Some(BasicAuthorization(user, password))
  {
    var plain := user + ":" + password;
    var a := "basic " + Base64.Encode(plain);
    assert StartsWith(a, "basic");
    assert Substr6(a) == Base64.Encode(plain);
    Base64.DecodeEncode(plain);
    SplitPair(user, password);
    assert BasicCredentials(a) == Some((user, password));
    AuthorizationFromCredentials(PutAll([], Sources(p)), user, password);
  }

  /** A value that does not start with lower-case `basic`, the usual `Basic` among them, yields no credentials. */
  lemma OnlyLowerCaseBasic(p: OrderedMap<ByteString>)
    requires Lookup(p, UserKey).None?
    requires AuthorizationValue(p).Some? && !StartsWith(AuthorizationValue(p).value, "basic")
    ensures Credentials(p).None?
  {
  }

  /** An authorization value whose decoding does not split into exactly two parts yields no credentials. */
  lemma NoPairNoCredentials(a: string)
    requires |Split(Base64.Decode(Substr6(a)), ':')| != 2
    ensures BasicCredentials(a).None?
  {
  }
}
