/**
 * signPayload and verifySignedPayload of docs/worker.ts. The MAC, JSON and UTF-8 are
 * parameters; strings are sequences of characters.
 */
module Signing {
  import opened Options
  import opened Texts
  import opened Bytes
  import opened Base64

  /** What the libraries compute: HMAC-SHA-256, JSON and UTF-8. */
  datatype Libraries<!T> = Libraries(
    mac: (string, seq<byte>) -> seq<byte>,
    encode: string -> seq<byte>,
    decode: seq<byte> -> string,
    stringify: T -> string,
    parse: string -> Option<T>)

  datatype Outcome<T> = Payload(value: T) | Null | Throws

  function Sign<T>(lib: Libraries<T>, payload: T, secret: string): (value: string)
  {
    var body := UrlEncode(lib.encode(lib.stringify(payload)));
    body + "." + UrlEncode(lib.mac(secret, lib.encode(body)))
  }

  /** value.split(".")[0] and [1]; the second is empty when there is no dot. */
  function Parts(s: string): (r: (string, string))
  {
    var parts := Split(s, '.');
    (parts[0], if |parts| == 1 then "" else parts[1])
  }

  function Verify<T>(lib: Libraries<T>, value: string, secret: string): (r: Outcome<T>)
  {
    var (body, signature) := Parts(value);
    if value == "" || body == "" || signature == "" then Null
    else match UrlDecode(signature)
      case None => Throws
      case Some(mac) =>
        if mac != lib.mac(secret, lib.encode(body)) then Null
        else match UrlDecode(body)
          case None => Null
          case Some(bytes) =>
            match lib.parse(lib.decode(bytes))
            case None => Null
            case Some(payload) => Payload(payload)
  }

  /** Splitting two dot-free parts joined by a dot gives them back, whatever follows a further dot. */
  lemma PartsOf(a: string, b: string, more: string)
    requires '.' !in a && '.' !in b
    ensures Parts(a + "." + b) == (a, b) && Parts(a + "." + b + "." + more) == (a, b)
  {
    hide Split;
    SplitOf(a, '.', b);
    SplitOf(a, '.', b + "." + more);
    SplitOf(b, '.', more);
    assert a + "." + b + "." + more == a + "." + (b + "." + more);
  }

  /**
   * A value of two parts is answered with a payload if and only if the second part decodes to the MAC
   * of the first under the secret and the first decodes and parses to that payload; if the second
   * decodes to anything else the answer is null.
   */
  lemma VerifyIff<T>(lib: Libraries<T>, body: string, signature: string, secret: string, payload: T)
    requires '.' !in body && '.' !in signature && body != "" && signature != ""
    ensures var mac, bytes := UrlDecode(signature), UrlDecode(body);
      var r := Verify(lib, body + "." + signature, secret);
      && (r == Payload(payload) <==>
           && mac == Some(lib.mac(secret, lib.encode(body))) && bytes.Some?
           && lib.parse(lib.decode(bytes.value)) == Some(payload))
      && (mac.Some? && mac.value != lib.mac(secret, lib.encode(body)) ==> r == Null)
  {
    hide UrlDecode, Parts;
    PartsOf(body, signature, "");
  }

  /** A value without two non-empty parts is answered with null. */
  lemma IncompleteIsNull<T>(lib: Libraries<T>, body: string, secret: string)
    requires '.' !in body
    ensures Verify(lib, body, secret) == Null && Verify(lib, body + ".", secret) == Null &&
      Verify(lib, "." + body, secret) == Null
  {
    hide UrlDecode, Split;
    SplitOf(body, '.', "");
    SplitOf("", '.', "");
    SplitOf("", '.', body);
    assert body + "." == body + "." + "" && "." + body == "" + "." + body;
  }

  /** A signed payload is rejected under every secret that gives its body another MAC. */
  lemma WrongSecretIsNull<T>(lib: Libraries<T>, payload: T, secret: string, other: string)
    requires lib.encode(lib.stringify(payload)) != []
    requires var body := lib.encode(UrlEncode(lib.encode(lib.stringify(payload))));
      lib.mac(secret, body) != [] && lib.mac(secret, body) != lib.mac(other, body)
    ensures Verify(lib, Sign(lib, payload, secret), other) == Null
  {
    hide UrlEncode, UrlDecode, Verify;
    var json := lib.encode(lib.stringify(payload));
    var body := UrlEncode(json);
    var mac := lib.mac(secret, lib.encode(body));
    UrlRoundTrip(json);
    UrlRoundTrip(mac);
    VerifyIff(lib, body, UrlEncode(mac), other, payload);
  }

  /** Every signed payload is accepted under the same secret, and comes back as it was. */
  lemma SignedIsAccepted<T>(lib: Libraries<T>, payload: T, secret: string)
    requires lib.parse(lib.decode(lib.encode(lib.stringify(payload)))) == Some(payload)
    requires lib.encode(lib.stringify(payload)) != []
    requires lib.mac(secret, lib.encode(UrlEncode(lib.encode(lib.stringify(payload))))) != []
    ensures Verify(lib, Sign(lib, payload, secret), secret) == Payload(payload)
  {
    hide UrlEncode, UrlDecode, Parts;
    var json := lib.encode(lib.stringify(payload));
    var body := UrlEncode(json);
    var mac := lib.mac(secret, lib.encode(body));
    UrlRoundTrip(json);
    UrlRoundTrip(mac);
    PartsOf(body, UrlEncode(mac), "");
  }

  /** Whatever follows a second dot is ignored: a signed value is not the only one accepted for its payload. */
  lemma TrailingPartsIgnored<T>(lib: Libraries<T>, payload: T, secret: string, more: string)
    requires lib.parse(lib.decode(lib.encode(lib.stringify(payload)))) == Some(payload)
    requires lib.encode(lib.stringify(payload)) != []
    requires lib.mac(secret, lib.encode(UrlEncode(lib.encode(lib.stringify(payload))))) != []
    ensures Verify(lib, Sign(lib, payload, secret) + "." + more, secret) == Payload(payload)
  {
    hide UrlEncode, UrlDecode, Parts;
    var json := lib.encode(lib.stringify(payload));
    var body := UrlEncode(json);
    var mac := lib.mac(secret, lib.encode(body));
    UrlRoundTrip(json);
    UrlRoundTrip(mac);
    PartsOf(body, UrlEncode(mac), more);
  }

  /** A signature part that is not base64 makes verification throw instead of answering null. */
  lemma UndecodableThrows<T>(lib: Libraries<T>, value: string, secret: string)
    ensures Verify(lib, value, secret).Throws? <==>
      Parts(value).0 != "" && Parts(value).1 != "" && UrlDecode(Parts(value).1).None?
  {
    hide UrlDecode;
    assert value == "" ==> Parts(value).0 == "";
  }

  /** Such a value: its signature part is a single exclamation mark. */
  lemma ExclamationThrows<T>(lib: Libraries<T>, secret: string)
    ensures Verify(lib, "a.!", secret).Throws?
  {
    hide Split, UrlDecode;
    SplitOf("a", '.', "!");
    SplitOf("!", '.', "");
    assert "a" + "." + "!" == "a.!";
    ExclamationUndecodable();
  }

  lemma ExclamationUndecodable()
    ensures UrlDecode("!").None?
  {
    assert ReplaceAll(ReplaceAll("!", '-', '+'), '_', '/') == "!";
    assert PadEnd("!") == "!===";
    WithoutSpacesSame("!===");
    assert "!==="[..2] == "!=" && "!="[|"!="| - 1] == '=';
    assert Indices("!=").None?;
  }
}
