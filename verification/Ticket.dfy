/** The Redis key inside an oauth2-proxy session cookie:
    base64( "v2." base64(key) "." base64(secret) ), then a signature. */
module Ticket {
  import opened Prelude
  import opened TextOps
  import Utf8
  import opened Base64

  const VERSION: Text := [0x76, 0x32, DOT]

  function SessionKey(cookie: Text, name: Text): Option<Text> {
    match Decode(Before(cookie, BAR))
    case None => None
    case Some(ticket) =>
      if !Utf8.Valid(ticket) || !StartsWith(ticket, VERSION) then None
      else
        match Decode(Before(ticket[|VERSION|..], DOT))
        case None => None
        case Some(key) =>
          if Utf8.Valid(key) && StartsWith(key, name + [DASH]) then Some(key) else None
  }

  /** The ticket text around a printed handle. */
  function TicketText(handle: Text, rest: Text): Text { VERSION + handle + rest }

  lemma TicketValid(handle: Text, rest: Text)
    requires Utf8.Valid(handle)
    requires rest == [] || rest[0] == DOT
    ensures Utf8.Valid(TicketText(handle, rest)) <==> Utf8.Valid(rest)
  {
    var v2 := VERSION[..2];
    Utf8.ValidAscii(v2);
    assert v2 + [DOT] + handle == VERSION + handle;
    Utf8.ValidAround(v2, DOT, handle);
    if rest != [] {
      var tail := rest[1..];
      assert rest == [DOT] + tail;
      Utf8.ValidAround(VERSION + handle, DOT, tail);
      assert TicketText(handle, rest) == VERSION + handle + [DOT] + tail;
      assert [] + [DOT] + tail == rest;
      Utf8.ValidAround([], DOT, tail);
    } else {
      assert TicketText(handle, rest) == VERSION + handle;
    }
  }

  /** A ticket around handle `h` gives back `h`. */
  lemma HandleOf(handle: Text, rest: Text)
    requires DOT !in handle && (rest == [] || rest[0] == DOT)
    ensures StartsWith(TicketText(handle, rest), VERSION)
    ensures Before(TicketText(handle, rest)[|VERSION|..], DOT) == handle
  {
    var t := TicketText(handle, rest);
    assert t[..|VERSION|] == VERSION;
    assert t[|VERSION|..] == handle + rest;
    BeforeCut(handle, DOT, rest);
  }

  /** Cookies a key can be read out of, and the key read: a ticket printed in
      any of the three forms, whose handle prints a key of ours. */
  ghost predicate Carries(cookie: Text, name: Text, key: Text, outer: Form, inner: Form, rest: Text) {
    && Utf8.Valid(key) && StartsWith(key, name + [DASH])
    && Utf8.Valid(rest) && (rest == [] || rest[0] == DOT)
    && Before(cookie, BAR) == Printed(outer, TicketText(Printed(inner, key), rest))
  }

  lemma CarriedKeyIsRead(cookie: Text, name: Text, key: Text, outer: Form, inner: Form, rest: Text)
    requires Carries(cookie, name, key, outer, inner, rest)
    ensures SessionKey(cookie, name) == Some(key)
  {
    var handle := Printed(inner, key);
    var ticket := TicketText(handle, rest);
    PrintedBytes(inner, key);
    DecodeExactly(ticket, Before(cookie, BAR));
    DecodeExactly(key, handle);
    TicketValid(handle, rest);
    HandleOf(handle, rest);
  }

  lemma ReadKeyIsCarried(cookie: Text, name: Text)
    returns (key: Text, outer: Form, inner: Form, rest: Text)
    requires SessionKey(cookie, name).Some?
    ensures SessionKey(cookie, name) == Some(key)
    ensures Carries(cookie, name, key, outer, inner, rest)
  {
    key := SessionKey(cookie, name).value;
    var signed := Before(cookie, BAR);
    var ticket := Decode(signed).value;
    var body := ticket[|VERSION|..];
    var handle := Before(body, DOT);
    rest := body[|handle|..];
    DecodeExactly(ticket, signed);
    outer :| signed == Printed(outer, ticket);
    DecodeExactly(key, handle);
    inner :| handle == Printed(inner, key);
    assert ticket == TicketText(handle, rest);
    PrintedBytes(inner, key);
    TicketValid(handle, rest);
  }

  /** Exactly when a key comes out of a cookie, and which. */
  lemma SessionKeyExactly(cookie: Text, name: Text, key: Text)
    ensures SessionKey(cookie, name) == Some(key) <==>
      exists outer, inner, rest :: Carries(cookie, name, key, outer, inner, rest)
  {
    if SessionKey(cookie, name) == Some(key) {
      var k, outer, inner, rest := ReadKeyIsCarried(cookie, name);
    }
    forall outer, inner, rest | Carries(cookie, name, key, outer, inner, rest)
      ensures SessionKey(cookie, name) == Some(key)
    {
      CarriedKeyIsRead(cookie, name, key, outer, inner, rest);
    }
  }

  /** A cookie as oauth2-proxy prints it. */
  function Cookie(key: Text, secret: Text, signature: Text): Text {
    Encoded(UrlSafe, VERSION + Encoded(UrlSafe, key) + [DOT] + Encoded(UrlSafe, secret)) + signature
  }

  /** The round trip: the key comes back exactly when it is one of ours,
      whatever the secret and the signature. */
  lemma RoundTrip(key: Text, secret: Text, signature: Text, name: Text)
    requires Utf8.Valid(key)
    requires signature == [] || signature[0] == BAR
    ensures SessionKey(Cookie(key, secret, signature), name)
         == if StartsWith(key, name + [DASH]) then Some(key) else None
  {
    CookieTicket(key, secret, signature);
    HandleOf(Printed(UrlSafeNoPad, key), [DOT] + Encoded(UrlSafe, secret));
    DecodeExactly(key, Printed(UrlSafeNoPad, key));
  }

  /** The ticket inside a printed cookie. */
  lemma CookieTicket(key: Text, secret: Text, signature: Text)
    requires signature == [] || signature[0] == BAR
    ensures DOT !in Printed(UrlSafeNoPad, key)
    ensures var ticket := TicketText(Printed(UrlSafeNoPad, key), [DOT] + Encoded(UrlSafe, secret));
      Decode(Before(Cookie(key, secret, signature), BAR)) == Some(ticket) && Utf8.Valid(ticket)
  {
    var rest := [DOT] + Encoded(UrlSafe, secret);
    var ticket := TicketText(Printed(UrlSafeNoPad, key), rest);
    assert VERSION + Encoded(UrlSafe, key) + [DOT] + Encoded(UrlSafe, secret) == ticket;
    PrintedBytes(UrlSafeNoPad, ticket);
    PrintedBytes(UrlSafeNoPad, secret);
    PrintedBytes(UrlSafeNoPad, key);
    BeforeCut(Encoded(UrlSafe, ticket), BAR, signature);
    Utf8.ValidAround([], DOT, Encoded(UrlSafe, secret));
    assert [] + [DOT] + Encoded(UrlSafe, secret) == rest;
    TicketValid(Printed(UrlSafeNoPad, key), rest);
    DecodeExactly(ticket, Printed(UrlSafeNoPad, ticket));
  }

  /** A refresh rewrites the signature and leaves the key alone. */
  lemma RefreshKeepsKey(cookie: Text, refreshed: Text, name: Text)
    requires Before(cookie, BAR) == Before(refreshed, BAR)
    ensures SessionKey(cookie, name) == SessionKey(refreshed, name)
  {}
}
