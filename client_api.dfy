/**
 * The request headers of the chat client (`getHeaders` in
 * app/client/api.ts): two fixed headers, an `Authorization` header built
 * from the user's token or, failing that, from the access code, and a final
 * pass that drops every header whose value is empty or not pure ASCII.
 */
module ClientApi {
  import opened Wrappers
  import opened JsText

  /** One entry of the headers record, in insertion order. */
  datatype Header = Header(name: string, value: string)

  /** The value of `name`, if present. */
  function Lookup(hs: seq<Header>, name: string): (r: Option<string>)
    ensures r.Some? <==> exists i :: 0 <= i < |hs| && hs[i].name == name
  {
    if hs == [] then None
    else if hs[0].name == name then Some(hs[0].value)
    else Lookup(hs[1..], name)
  }

  /** `isAsciiOnly`: an index loop that stops at the first code above 127. */
  method ScanAscii(str: string) returns (ok: bool)
    ensures ok <==> IsAsciiOnly(str)
  {
    if |str| == 0 {
      return false;
    }
    for i := 0 to |str|
      invariant forall k :: 0 <= k < i ==> str[k] as int <= 127
    {
      if str[i] as int > 127 {
        return false;
      }
    }
    return true;
  }

  const DefaultHeaders: seq<Header> :=
    [Header("Content-Type", "application/json"), Header("x-requested-with", "XMLHttpRequest")]

  /** `makeBearer`: the scheme, a space and the trimmed credential. */
  function Bearer(credential: string): string {
    "Bearer " + Trim(credential)
  }

  /**
   * The `Authorization` value: the user's token when it is non-empty and
   * ASCII; otherwise, when access control is on, the prefixed access code
   * when that is non-empty and ASCII; dropped when the bearer text is not
   * ASCII.
   */
  function Authorization(token: string, accessCode: string, accessControl: bool, prefix: string): (r: Option<string>)
    ensures r.Some? ==> IsAsciiOnly(r.value)
  {
    if IsAsciiOnly(token) then
      (if IsAsciiOnly(Bearer(token)) then Some(Bearer(token)) else None)
    else if accessControl && IsAsciiOnly(accessCode) then
      (if IsAsciiOnly(Bearer(prefix + accessCode)) then Some(Bearer(prefix + accessCode)) else None)
    else None
  }

  /** The headers that survive the final pass: those with a non-empty ASCII value. */
  function AsciiHeaders(hs: seq<Header>): (r: seq<Header>)
    ensures forall h :: h in r <==> h in hs && IsAsciiOnly(h.value)
    ensures |r| <= |hs|
  {
    if hs == [] then []
    else AsciiHeaders(hs[..|hs| - 1]) + (if IsAsciiOnly(hs[|hs| - 1].value) then [hs[|hs| - 1]] else [])
  }

  /** Every value of `hs` is non-empty ASCII. */
  ghost predicate AllClean(hs: seq<Header>) {
    forall i :: 0 <= i < |hs| ==> IsAsciiOnly(hs[i].value)
  }

  /** The final pass keeps a record that is already clean as it is. */
  lemma {:induction false} AsciiHeadersKeepsClean(hs: seq<Header>)
    requires AllClean(hs)
    ensures AsciiHeaders(hs) == hs
  {
    if hs != [] {
      var front, last := hs[..|hs| - 1], hs[|hs| - 1];
      assert AllClean(front) by {
        forall i | 0 <= i < |front| ensures IsAsciiOnly(front[i].value) {
          assert front[i] == hs[i];
        }
      }
      AsciiHeadersKeepsClean(front);
      AsciiHeadersLastKept(hs);
      assert front + [last] == hs;
    }
  }

  lemma AsciiHeadersLastKept(hs: seq<Header>)
    requires hs != [] && IsAsciiOnly(hs[|hs| - 1].value)
    ensures AsciiHeaders(hs) == AsciiHeaders(hs[..|hs| - 1]) + [hs[|hs| - 1]]
  {
  }

  /** A bearer built from an ASCII credential is ASCII: the token branch never drops its header. */
  lemma BearerOfAscii(credential: string)
    requires AllAscii(credential)
    ensures IsAsciiOnly(Bearer(credential))
  {
    TrimKeepsAscii(credential);
    var b := Bearer(credential);
    assert b == "Bearer " + Trim(credential);
    forall k | 0 <= k < |b|
      ensures b[k] as int <= 127
    {
      if k >= 7 {
        assert b[k] == Trim(credential)[k - 7];
      }
    }
  }

  /** A usable token wins, and the access code is then not looked at. */
  lemma TokenFirst(token: string, accessCode: string, accessControl: bool, prefix: string)
    requires IsAsciiOnly(token)
    ensures Authorization(token, accessCode, accessControl, prefix) == Some(Bearer(token))
  {
    BearerOfAscii(token);
  }

  /** Without a usable token, access control on and a usable code with an ASCII prefix give the prefixed bearer. */
  lemma CodeSecond(token: string, accessCode: string, prefix: string)
    requires !IsAsciiOnly(token) && IsAsciiOnly(accessCode) && AllAscii(prefix)
    ensures Authorization(token, accessCode, true, prefix) == Some(Bearer(prefix + accessCode))
  {
    assert AllAscii(prefix + accessCode) by {
      forall k | 0 <= k < |prefix + accessCode|
        ensures (prefix + accessCode)[k] as int <= 127
      {
        if k >= |prefix| {
          assert (prefix + accessCode)[k] == accessCode[k - |prefix|];
        }
      }
    }
    BearerOfAscii(prefix + accessCode);
  }

  /** Without a usable token and without a usable code (or with access control off) there is no `Authorization`. */
  lemma NoCredential(token: string, accessCode: string, accessControl: bool, prefix: string)
    requires !IsAsciiOnly(token) && (!accessControl || !IsAsciiOnly(accessCode))
    ensures Authorization(token, accessCode, accessControl, prefix) == None
  {
  }

  /** The record after the first pass: every value that is not ASCII blanked, names and order kept. */
  function Blanked(hs: seq<Header>): (r: seq<Header>)
    ensures |r| == |hs|
    ensures forall i :: 0 <= i < |hs| ==> r[i].name == hs[i].name
    ensures forall i :: 0 <= i < |hs| ==> r[i].value == if IsAsciiOnly(hs[i].value) then hs[i].value else ""
  {
    seq(|hs|, i requires 0 <= i < |hs| => if IsAsciiOnly(hs[i].value) then hs[i] else Header(hs[i].name, ""))
  }

  /** The first pass: blank, in place, every value that is not ASCII. */
  method BlankNonAscii(hs: seq<Header>) returns (r: seq<Header>)
    ensures r == Blanked(hs)
  {
    r := hs;
    for i := 0 to |r|
      invariant |r| == |hs|
      invariant forall k :: 0 <= k < |r| ==> r[k].name == hs[k].name
      invariant forall k :: 0 <= k < i ==> r[k].value == if IsAsciiOnly(hs[k].value) then hs[k].value else ""
      invariant forall k :: i <= k < |r| ==> r[k] == hs[k]
    {
      var ok := ScanAscii(r[i].value);
      if !ok {
        r := r[i := Header(r[i].name, "")];
      }
    }
  }

  /** The final pass: delete every entry whose value is empty or not ASCII. */
  method DropNonAscii(hs: seq<Header>) returns (r: seq<Header>)
    ensures r == AsciiHeaders(hs)
  {
    r := [];
    for i := 0 to |hs|
      invariant r == AsciiHeaders(hs[..i])
    {
      assert hs[..i + 1][..i] == hs[..i];
      var ok := ScanAscii(hs[i].value);
      if ok {
        r := r + [hs[i]];
      }
    }
    assert hs[..|hs|] == hs;
  }

  /** The fixed headers are ASCII, so the first pass leaves them alone. */
  lemma DefaultsClean()
    ensures forall i :: 0 <= i < |DefaultHeaders| ==> IsAsciiOnly(DefaultHeaders[i].value)
    ensures Blanked(DefaultHeaders) == DefaultHeaders
  {
    assert IsAsciiOnly(DefaultHeaders[0].value);
    assert IsAsciiOnly(DefaultHeaders[1].value);
  }

  /** The two branches of the credential choice. */
  method ChooseAuthorization(token: string, accessCode: string, accessControl: bool, prefix: string)
    returns (auth: Option<string>)
    ensures auth == Authorization(token, accessCode, accessControl, prefix)
  {
    auth := None;
    var tokenOk := ScanAscii(token);
    if tokenOk {
      var bearer := Bearer(token);
      var bearerOk := ScanAscii(bearer);
      if bearerOk {
        auth := Some(bearer);
      }
    } else {
      var codeOk := ScanAscii(accessCode);
      if accessControl && codeOk {
        var bearer := Bearer(prefix + accessCode);
        var bearerOk := ScanAscii(bearer);
        if bearerOk {
          auth := Some(bearer);
        }
      }
    }
  }

  /**
   * `getHeaders`, with the store's token, access code and access-control
   * flag and the access-code prefix as parameters: the two fixed headers,
   * then `Authorization` when there is one; every value non-empty ASCII.
   */
  method GetHeaders(token: string, accessCode: string, accessControl: bool, prefix: string) returns (headers: seq<Header>)
    ensures headers == DefaultHeaders + (match Authorization(token, accessCode, accessControl, prefix)
                                         case Some(b) => [Header("Authorization", b)]
                                         case None => [])
    ensures forall i :: 0 <= i < |headers| ==> IsAsciiOnly(headers[i].value)
    ensures Lookup(headers, "Authorization") == Authorization(token, accessCode, accessControl, prefix)
  {
    headers := BlankNonAscii(DefaultHeaders);
    DefaultsClean();
    var auth := ChooseAuthorization(token, accessCode, accessControl, prefix);
    if auth.Some? {
      headers := headers + [Header("Authorization", auth.value)];
    }
    var all := headers;
    assert AllClean(all);
    AsciiHeadersKeepsClean(all);
    headers := DropNonAscii(all);
    AuthorizationFound(auth);
  }

  /** `Authorization` is found exactly when it was added. */
  lemma AuthorizationFound(auth: Option<string>)
    ensures Lookup(DefaultHeaders + (match auth case Some(b) => [Header("Authorization", b)] case None => []), "Authorization") == auth
  {
    var extra := match auth case Some(b) => [Header("Authorization", b)] case None => [];
    var hs := DefaultHeaders + extra;
    assert hs[0].name != "Authorization" && hs[1].name != "Authorization";
    assert hs[1..][1..] == extra;
    assert Lookup(hs, "Authorization") == Lookup(hs[1..], "Authorization") == Lookup(extra, "Authorization");
    if auth.Some? {
      assert extra == [Header("Authorization", auth.value)];
    } else {
      assert extra == [];
    }
  }
}
