/** Session tokens in cookies. `setCookie` renders a cookie string from a
    name, a URI-encoded value and attribute options with defaults, and
    assigns it to `document.cookie`; the browser's cookie jar is not
    modelled, so each assignment is an entry in a write log. `getCookie`
    parses a `document.cookie` header, given as input. The CSRF token is the
    lowercase hexadecimal rendering of 32 random bytes, also an input.
    `encodeURIComponent` and `decodeURIComponent` are the parameters
    `encode` and `decode`. */
module CookieService {
  import opened Wrappers
  import opened Text

  const ACCESS_TOKEN_NAME: string := "auth_token"
  const REFRESH_TOKEN_NAME: string := "refresh_token"
  const CSRF_TOKEN_NAME: string := "csrf_token"

  /** Seven days, in seconds. */
  const REFRESH_TOKEN_MAX_AGE: int := 7 * 24 * 60 * 60

  datatype SameSite = Strict | Lax | SameSiteNone

  function SameSiteText(sameSite: SameSite): string
  {
    match sameSite
    case Strict => "Strict"
    case Lax => "Lax"
    case SameSiteNone => "None"
  }

  /** The options of `setCookie`; an absent field takes its default. */
  datatype CookieOptions = CookieOptions(
    httpOnly: Option<bool>,
    secure: Option<bool>,
    sameSite: Option<SameSite>,
    path: Option<string>,
    domain: Option<string>,
    maxAge: Option<int>)

  /** The attribute segments `setCookie` renders, each as it follows a `;`,
      in the fixed order HttpOnly, Secure, SameSite, Path, Domain, Max-Age.
      HttpOnly and Secure default to on, SameSite to Strict and Path to `/`;
      an empty path or domain and a zero or absent max-age are left out.
      SameSite is always present, and each segment starts with the space
      that follows its `;`. */
  function Attributes(options: CookieOptions): (attrs: seq<string>)
    ensures 1 <= |attrs| <= 6
    ensures forall i :: 0 <= i < |attrs| ==> |attrs[i]| > 1 && attrs[i][0] == ' '
  {
    var httpOnly := options.httpOnly.GetOr(true);
    var secure := options.secure.GetOr(true);
    var sameSite := options.sameSite.GetOr(Strict);
    var path := options.path.GetOr("/");
    var domain := options.domain.GetOr("");
    var maxAge := options.maxAge.GetOr(0);
    Present(httpOnly, " HttpOnly")
    + Present(secure, " Secure")
    + [" SameSite=" + SameSiteText(sameSite)]
    + Present(path != "", " Path=" + path)
    + Present(domain != "", " Domain=" + domain)
    + Present(maxAge != 0, " Max-Age=" + IntToString(maxAge))
  }

  /** Whatever the options, a cookie carries a SameSite attribute (Strict
      unless set), a Path attribute (`/` unless set to something else or to
      the empty path), and HttpOnly first unless HttpOnly is turned off. */
  lemma AttributesDefaults(options: CookieOptions)
    ensures " SameSite=" + SameSiteText(options.sameSite.GetOr(Strict)) in Attributes(options)
    ensures options.path.GetOr("/") != "" ==> " Path=" + options.path.GetOr("/") in Attributes(options)
    ensures options.httpOnly != Some(false) ==> Attributes(options)[0] == " HttpOnly"
  {
  }

  /** A segment that is rendered only when its condition holds. */
  function Present(condition: bool, segment: string): (segments: seq<string>)
    ensures |segments| <= 1
    ensures segment in segments <==> condition
  {
    if condition then [segment] else []
  }

  /** The string `setCookie` assigns: `name=encodedValue` followed by the
      attribute segments, separated by `;`. It always starts with the pair. */
  function CookieString(name: string, value: string, options: CookieOptions, encode: string -> string): (s: string)
    ensures |name + "=" + encode(value)| <= |s|
    ensures s[..|name + "=" + encode(value)|] == name + "=" + encode(value)
  {
    Join([name + "=" + encode(value)] + Attributes(options), ';')
  }

  /** Appending one optional segment to a cookie string in the making:
      `text` is the segment with its `;` in front. */
  lemma AddSegment(first: string, attrs: seq<string>, condition: bool, segment: string, text: string)
    requires text == [';'] + segment
    ensures Join([first] + (attrs + Present(condition, segment)), ';') == Join([first] + attrs, ';') + (if condition then text else "")
  {
    assert [first] + (attrs + Present(condition, segment)) == ([first] + attrs) + Present(condition, segment);
    if condition {
      JoinAppend([first] + attrs, segment, ';');
      var joined := Join([first] + attrs, ';');
      assert joined + [';'] + segment == joined + text;
    } else {
      assert ([first] + attrs) + Present(condition, segment) == [first] + attrs;
    }
  }

  /** A segment made of a fixed label and an option's value keeps its `;`
      in front when the value is appended. A proof step only: it models
      nothing of its own. */
  lemma LabelledText(textLabel: string, segmentLabel: string, argument: string)
    requires textLabel == [';'] + segmentLabel
    ensures textLabel + argument == [';'] + (segmentLabel + argument)
  {
  }

  /** The flags and SameSite segments, appended the way `setCookie` appends
      them. */
  lemma BuildFlags(first: string, httpOnly: bool, secure: bool, sameSite: SameSite)
    ensures Join([first] + (Present(httpOnly, " HttpOnly") + Present(secure, " Secure") + [" SameSite=" + SameSiteText(sameSite)]), ';')
            == first + (if httpOnly then "; HttpOnly" else "") + (if secure then "; Secure" else "")
               + ("; SameSite=" + SameSiteText(sameSite))
  {
    AddSegment(first, [], httpOnly, " HttpOnly", "; HttpOnly");
    assert [] + Present(httpOnly, " HttpOnly") == Present(httpOnly, " HttpOnly");
    assert Join([first] + [], ';') == first;
    var attrs := Present(httpOnly, " HttpOnly");
    AddSegment(first, attrs, secure, " Secure", "; Secure");
    attrs := attrs + Present(secure, " Secure");
    LabelledText("; SameSite=", " SameSite=", SameSiteText(sameSite));
    AddSegment(first, attrs, true, " SameSite=" + SameSiteText(sameSite), "; SameSite=" + SameSiteText(sameSite));
  }

  /** The Path, Domain and Max-Age segments, appended the way `setCookie`
      appends them. */
  lemma BuildPlacement(first: string, attrs: seq<string>, path: string, domain: string, maxAge: int)
    ensures Join([first] + (attrs + Present(path != "", " Path=" + path) + Present(domain != "", " Domain=" + domain)
                            + Present(maxAge != 0, " Max-Age=" + IntToString(maxAge))), ';')
            == Join([first] + attrs, ';') + (if path != "" then "; Path=" + path else "")
               + (if domain != "" then "; Domain=" + domain else "")
               + (if maxAge != 0 then "; Max-Age=" + IntToString(maxAge) else "")
  {
    LabelledText("; Path=", " Path=", path);
    AddSegment(first, attrs, path != "", " Path=" + path, "; Path=" + path);
    var more := attrs + Present(path != "", " Path=" + path);
    LabelledText("; Domain=", " Domain=", domain);
    AddSegment(first, more, domain != "", " Domain=" + domain, "; Domain=" + domain);
    more := more + Present(domain != "", " Domain=" + domain);
    LabelledText("; Max-Age=", " Max-Age=", IntToString(maxAge));
    AddSegment(first, more, maxAge != 0, " Max-Age=" + IntToString(maxAge), "; Max-Age=" + IntToString(maxAge));
  }

  /** `setCookie`'s string building: one `+=` per attribute whose option is
      set (SameSite always is). */
  method BuildCookieString(name: string, value: string, options: CookieOptions, encode: string -> string)
    returns (cookieString: string)
    ensures cookieString == CookieString(name, value, options, encode)
  {
    var httpOnly := options.httpOnly.GetOr(true);
    var secure := options.secure.GetOr(true);
    var sameSite := options.sameSite.GetOr(Strict);
    var path := options.path.GetOr("/");
    var domain := options.domain.GetOr("");
    var maxAge := options.maxAge.GetOr(0);

    cookieString := name + "=" + encode(value);
    ghost var first := cookieString;
    cookieString := cookieString + (if httpOnly then "; HttpOnly" else "");
    cookieString := cookieString + (if secure then "; Secure" else "");
    cookieString := cookieString + ("; SameSite=" + SameSiteText(sameSite));
    cookieString := cookieString + (if path != "" then "; Path=" + path else "");
    cookieString := cookieString + (if domain != "" then "; Domain=" + domain else "");
    cookieString := cookieString + (if maxAge != 0 then "; Max-Age=" + IntToString(maxAge) else "");

    BuildFlags(first, httpOnly, secure, sameSite);
    BuildPlacement(first, Present(httpOnly, " HttpOnly") + Present(secure, " Secure") + [" SameSite=" + SameSiteText(sameSite)],
                   path, domain, maxAge);
  }

  // ---------------------------------------------------------------------
  // The CSRF token

  /** An element of a `Uint8Array`. */
  type byte = b: int | 0 <= b < 256

  /** The number of random bytes in a CSRF token. */
  const CSRF_TOKEN_BYTES: nat := 32

  predicate IsLowerHexDigit(c: char)
  {
    '0' <= c <= '9' || 'a' <= c <= 'f'
  }

  /** The digit `toString(16)` writes for a value below 16. */
  function HexDigit(d: nat): (c: char)
    requires d < 16
    ensures IsLowerHexDigit(c)
  {
    if d < 10 then '0' + d as char else 'a' + (d - 10) as char
  }

  /** The value of a lowercase hexadecimal digit. */
  function HexValue(c: char): (d: nat)
    requires IsLowerHexDigit(c)
    ensures d < 16 && HexDigit(d) == c
  {
    if c <= '9' then (c - '0') as nat else (c - 'a') as nat + 10
  }

  /** `n.toString(16)`: lowercase hexadecimal digits, no padding: a leading
      zero only for zero itself; one digit below 16, two below 256. */
  function ToRadix16(n: nat): (digits: string)
    ensures |digits| >= 1
    ensures forall i :: 0 <= i < |digits| ==> IsLowerHexDigit(digits[i])
    ensures n >= 1 ==> digits[0] != '0'
    decreases n
  {
    if n < 16 then [HexDigit(n)] else ToRadix16(n / 16) + [HexDigit(n % 16)]
  }

  /** `s.padStart(2, '0')`. */
  function PadStart2(s: string): (padded: string)
    ensures |padded| == if |s| >= 2 then |s| else 2
    ensures |s| >= 2 ==> padded == s
    ensures |s| == 1 ==> padded == ['0', s[0]]
    ensures |s| == 0 ==> padded == "00"
  {
    if |s| >= 2 then s else seq(2 - |s|, _ => '0') + s
  }

  /** One byte as `byte.toString(16).padStart(2, '0')`: always two digits,
      the high nibble first. */
  function ByteToHex(b: byte): (hex: string)
    ensures hex == [HexDigit(b / 16), HexDigit(b % 16)]
  {
    var digits := ToRadix16(b);
    assert b >= 16 ==> ToRadix16(b / 16) == [HexDigit(b / 16)];
    assert digits == if b < 16 then [HexDigit(b)] else [HexDigit(b / 16), HexDigit(b % 16)];
    PadStart2(digits)
  }

  /** `Array.from(bytes, byteToHex).join('')`. */
  function BytesToHex(bytes: seq<byte>): (hex: string)
    ensures |hex| == 2 * |bytes|
    ensures forall i :: 0 <= i < |hex| ==> IsLowerHexDigit(hex[i])
  {
    if |bytes| == 0 then "" else ByteToHex(bytes[0]) + BytesToHex(bytes[1..])
  }

  /** Reads lowercase hexadecimal text back into bytes, two digits each. */
  function HexToBytes(hex: string): (bytes: seq<byte>)
    requires |hex| % 2 == 0
    requires forall i :: 0 <= i < |hex| ==> IsLowerHexDigit(hex[i])
    ensures |bytes| == |hex| / 2
  {
    if |hex| == 0 then [] else [HexValue(hex[0]) * 16 + HexValue(hex[1])] + HexToBytes(hex[2..])
  }

  /** The hexadecimal rendering loses nothing: reading it back gives the
      bytes. */
  lemma {:induction false} BytesToHexRoundTrip(bytes: seq<byte>)
    ensures HexToBytes(BytesToHex(bytes)) == bytes
  {
    if |bytes| > 0 {
      var hex := BytesToHex(bytes);
      var b := bytes[0];
      assert hex[..2] == ByteToHex(b);
      assert hex[2..] == BytesToHex(bytes[1..]);
      assert HexValue(hex[0]) == b / 16;
      assert HexValue(hex[1]) == b % 16;
      BytesToHexRoundTrip(bytes[1..]);
      assert bytes == [b] + bytes[1..];
    }
  }

  /** Every even-length lowercase hexadecimal text is the rendering of some
      bytes, so the rendering is onto such texts. */
  lemma {:induction false} HexToBytesRoundTrip(hex: string)
    requires |hex| % 2 == 0
    requires forall i :: 0 <= i < |hex| ==> IsLowerHexDigit(hex[i])
    ensures BytesToHex(HexToBytes(hex)) == hex
    decreases |hex|
  {
    if |hex| > 0 {
      var bytes := HexToBytes(hex);
      var b := HexValue(hex[0]) * 16 + HexValue(hex[1]);
      assert bytes[0] == b;
      assert bytes[1..] == HexToBytes(hex[2..]);
      assert b / 16 == HexValue(hex[0]) && b % 16 == HexValue(hex[1]);
      HexToBytesRoundTrip(hex[2..]);
      assert hex == [hex[0], hex[1]] + hex[2..];
    }
  }

  /** `generateCsrfToken`, given the 32 bytes `crypto.getRandomValues`
      fills in: 64 lowercase hexadecimal digits from which the bytes can be
      read back. */
  function CsrfToken(randomBytes: seq<byte>): (token: string)
    requires |randomBytes| == CSRF_TOKEN_BYTES
    ensures |token| == 64
    ensures forall i :: 0 <= i < |token| ==> IsLowerHexDigit(token[i])
    ensures HexToBytes(token) == randomBytes
  {
    BytesToHexRoundTrip(randomBytes);
    BytesToHex(randomBytes)
  }

  /** The options `removeCookie` passes: every default, and a max-age of 0,
      which renders no Max-Age at all. */
  const REMOVAL_OPTIONS: CookieOptions := CookieOptions(None, None, None, None, None, Some(0))

  /** The options of the access-token cookie. */
  function AccessTokenOptions(expiresIn: int): CookieOptions
  {
    CookieOptions(Some(true), Some(true), Some(Strict), None, None, Some(expiresIn))
  }

  /** The options of the refresh-token cookie. */
  const REFRESH_TOKEN_OPTIONS: CookieOptions :=
    CookieOptions(Some(true), Some(true), Some(Strict), None, None, Some(REFRESH_TOKEN_MAX_AGE))

  /** The options of the CSRF-token cookie, which scripts may read. */
  function CsrfTokenOptions(expiresIn: int): CookieOptions
  {
    CookieOptions(Some(false), Some(true), Some(Strict), None, None, Some(expiresIn))
  }

  /** The three writes of `setAuthTokens`, in order: the access token, the
      refresh token and the CSRF token, each under its own name. */
  function AuthTokenWrites(accessToken: string, refreshToken: string, expiresIn: int, csrfToken: string, encode: string -> string)
    : (writes: seq<string>)
    ensures |writes| == 3
    ensures StartsWith(writes[0], ACCESS_TOKEN_NAME + "=" + encode(accessToken))
    ensures StartsWith(writes[1], REFRESH_TOKEN_NAME + "=" + encode(refreshToken))
    ensures StartsWith(writes[2], CSRF_TOKEN_NAME + "=" + encode(csrfToken))
  {
    [ CookieString(ACCESS_TOKEN_NAME, accessToken, AccessTokenOptions(expiresIn), encode),
      CookieString(REFRESH_TOKEN_NAME, refreshToken, REFRESH_TOKEN_OPTIONS, encode),
      CookieString(CSRF_TOKEN_NAME, csrfToken, CsrfTokenOptions(expiresIn), encode) ]
  }

  /** `prefix` is a prefix of `s`. */
  predicate StartsWith(s: string, prefix: string)
  {
    |prefix| <= |s| && s[..|prefix|] == prefix
  }

  /** The three writes of `clearAuthTokens`, in order. They depend on nothing
      but the names, so clearing twice writes the same strings twice; when
      encoding leaves the empty value empty, each is the name with an empty
      value and no Max-Age. */
  function ClearTokenWrites(encode: string -> string): (writes: seq<string>)
    ensures |writes| == 3
    ensures encode("") == "" ==>
              writes == [ ACCESS_TOKEN_NAME + "=" + REMOVAL_TAIL, REFRESH_TOKEN_NAME + "=" + REMOVAL_TAIL,
                          CSRF_TOKEN_NAME + "=" + REMOVAL_TAIL ]
  {
    var writes := [ CookieString(ACCESS_TOKEN_NAME, "", REMOVAL_OPTIONS, encode),
                    CookieString(REFRESH_TOKEN_NAME, "", REMOVAL_OPTIONS, encode),
                    CookieString(CSRF_TOKEN_NAME, "", REMOVAL_OPTIONS, encode) ];
    if encode("") != "" then writes
    else
      RemovalString(ACCESS_TOKEN_NAME, encode);
      RemovalString(REFRESH_TOKEN_NAME, encode);
      RemovalString(CSRF_TOKEN_NAME, encode);
      writes
  }

  /** Lining up single segments gives the list of those segments. A proof
      step only: it models nothing of its own. */
  lemma Lined(a: string, b: string, c: string, d: string)
    ensures [a] + [b] + [c] + [d] + [] == [a, b, c, d]
    ensures [] + [b] + [c] + [d] + [] == [b, c, d]
  {
  }

  /** The SameSite and Path segments the session cookies render. A proof
      step only: it models nothing of its own. */
  lemma StrictRootSegments()
    ensures " SameSite=" + SameSiteText(Strict) == " SameSite=Strict"
    ensures " Path=" + "/" == " Path=/"
  {
  }

  /** The access-token cookie is HttpOnly, Secure and SameSite=Strict on
      path `/`, and lives `expiresIn` seconds (a session cookie when that
      is 0). */
  lemma AccessCookieAttributes(expiresIn: int)
    ensures Attributes(AccessTokenOptions(expiresIn))
            == [" HttpOnly", " Secure", " SameSite=Strict", " Path=/"] + MaxAgeAttribute(expiresIn)
  {
    var flags := [" HttpOnly"] + [" Secure"] + [" SameSite=" + SameSiteText(Strict)] + [" Path=" + "/"] + [];
    assert Attributes(AccessTokenOptions(expiresIn)) == flags + MaxAgeAttribute(expiresIn);
    Lined(" HttpOnly", " Secure", " SameSite=" + SameSiteText(Strict), " Path=" + "/");
    StrictRootSegments();
  }

  /** Seven days is rendered as `Max-Age=604800`. */
  lemma WeekMaxAge()
    ensures MaxAgeAttribute(REFRESH_TOKEN_MAX_AGE) == [" Max-Age=604800"]
  {
    assert NatToString(6) == "6";
    assert NatToString(60) == "60";
    assert NatToString(604) == "604";
    assert NatToString(6048) == "6048";
    assert NatToString(60480) == "60480";
    assert NatToString(604800) == "604800";
    assert REFRESH_TOKEN_MAX_AGE == 604800;
    assert " Max-Age=" + "604800" == " Max-Age=604800";
  }

  /** The refresh-token cookie has the same flags and lives seven days. */
  lemma RefreshCookieAttributes()
    ensures Attributes(REFRESH_TOKEN_OPTIONS) == [" HttpOnly", " Secure", " SameSite=Strict", " Path=/", " Max-Age=604800"]
  {
    var flags := [" HttpOnly"] + [" Secure"] + [" SameSite=" + SameSiteText(Strict)] + [" Path=" + "/"] + [];
    assert Attributes(REFRESH_TOKEN_OPTIONS) == flags + MaxAgeAttribute(REFRESH_TOKEN_MAX_AGE);
    Lined(" HttpOnly", " Secure", " SameSite=" + SameSiteText(Strict), " Path=" + "/");
    StrictRootSegments();
    WeekMaxAge();
  }

  /** The CSRF-token cookie is the access-token cookie without HttpOnly, so
      that the page's scripts can read it back. */
  lemma CsrfCookieAttributes(expiresIn: int)
    ensures Attributes(CsrfTokenOptions(expiresIn))
            == [" Secure", " SameSite=Strict", " Path=/"] + MaxAgeAttribute(expiresIn)
  {
    var flags := [] + [" Secure"] + [" SameSite=" + SameSiteText(Strict)] + [" Path=" + "/"] + [];
    assert Attributes(CsrfTokenOptions(expiresIn)) == flags + MaxAgeAttribute(expiresIn);
    Lined(" HttpOnly", " Secure", " SameSite=" + SameSiteText(Strict), " Path=" + "/");
    StrictRootSegments();
  }

  /** `Max-Age` is rendered only for a non-zero value. */
  function MaxAgeAttribute(maxAge: int): (attrs: seq<string>)
    ensures maxAge == 0 <==> attrs == []
  {
    Present(maxAge != 0, " Max-Age=" + IntToString(maxAge))
  }

  /** A removal renders the defaults HttpOnly, Secure, SameSite=Strict and
      Path=/ and no Max-Age, so the browser drops the cookie at the end of
      the session rather than at once. */
  lemma RemovalAttributes()
    ensures Attributes(REMOVAL_OPTIONS) == [" HttpOnly", " Secure", " SameSite=Strict", " Path=/"]
  {
    var flags := [" HttpOnly"] + [" Secure"] + [" SameSite=" + SameSiteText(Strict)] + [" Path=" + "/"] + [];
    assert Attributes(REMOVAL_OPTIONS) == flags + [];
    Lined(" HttpOnly", " Secure", " SameSite=" + SameSiteText(Strict), " Path=" + "/");
    StrictRootSegments();
  }

  /** A first piece and four more, joined. */
  lemma JoinFour(p: string, a: string, b: string, c: string, d: string, sep: char)
    ensures Join([p] + [a, b, c, d], sep) == p + ([sep] + a) + ([sep] + b) + ([sep] + c) + ([sep] + d)
  {
    assert [p] + [a, b, c, d] == [p] + [a] + [b] + [c] + [d];
    JoinAppend([p], a, sep);
    JoinAppend([p] + [a], b, sep);
    JoinAppend([p] + [a] + [b], c, sep);
    JoinAppend([p] + [a] + [b] + [c], d, sep);
  }

  /** What a removal writes after `name=`. */
  const REMOVAL_TAIL: string := "; HttpOnly" + "; Secure" + "; SameSite=Strict" + "; Path=/"

  /** `removeCookie(name)` writes `name=; HttpOnly; Secure; SameSite=Strict;
      Path=/`, when encoding leaves the empty value empty: an empty value
      and no Max-Age. */
  lemma RemovalString(name: string, encode: string -> string)
    requires encode("") == ""
    ensures CookieString(name, "", REMOVAL_OPTIONS, encode) == name + "=" + REMOVAL_TAIL
  {
    RemovalAttributes();
    JoinFour(name + "=" + encode(""), " HttpOnly", " Secure", " SameSite=Strict", " Path=/", ';');
    assert name + "=" + encode("") == name + "=";
    assert [';'] + " HttpOnly" == "; HttpOnly";
    assert [';'] + " Secure" == "; Secure";
    assert [';'] + " SameSite=Strict" == "; SameSite=Strict";
    assert [';'] + " Path=/" == "; Path=/";
    Regroup(name + "=", "; HttpOnly", "; Secure", "; SameSite=Strict", "; Path=/");
  }

  /** Appending four texts one by one appends their concatenation. A proof
      step only: it models nothing of its own. */
  lemma Regroup(p: string, a: string, b: string, c: string, d: string)
    ensures p + a + b + c + d == p + (a + b + c + d)
  {
  }

  /** A string with no `;`, no `=` and no whitespace: such a cookie name or
      encoded value survives `getCookie`'s splitting and trimming. */
  predicate PlainText(t: string)
  {
    forall i :: 0 <= i < |t| ==> t[i] != ';' && t[i] != '=' && !IsJsWhitespace(t[i])
  }

  /** The rendering of an integer holds no `;`. */
  lemma IntTextSeparatorFree(n: int)
    ensures ';' !in IntToString(n)
  {
    IntToStringRoundTrip(n);
  }

  /** No segment of a list holds a `;`. */
  predicate SeparatorFree(segments: seq<string>)
  {
    forall i :: 0 <= i < |segments| ==> ';' !in segments[i]
  }

  /** Two lists of `;`-free segments concatenate to one. */
  lemma SeparatorFreeAppend(a: seq<string>, b: seq<string>)
    requires SeparatorFree(a) && SeparatorFree(b)
    ensures SeparatorFree(a + b)
  {
    forall i | 0 <= i < |a + b|
      ensures ';' !in (a + b)[i]
    {
      if i >= |a| {
        assert (a + b)[i] == b[i - |a|];
      }
    }
  }

  /** An optional segment without `;` gives a `;`-free list. */
  lemma PresentSeparatorFree(condition: bool, prefix: string, argument: string)
    requires ';' !in prefix && ';' !in argument
    ensures SeparatorFree(Present(condition, prefix + argument))
  {
  }

  /** The segments up to SameSite hold no `;`. */
  lemma FlagsSeparatorFree(options: CookieOptions)
    ensures SeparatorFree(Present(options.httpOnly.GetOr(true), " HttpOnly") + Present(options.secure.GetOr(true), " Secure")
                          + [" SameSite=" + SameSiteText(options.sameSite.GetOr(Strict))])
  {
    PresentSeparatorFree(options.httpOnly.GetOr(true), " HttpOnly", "");
    PresentSeparatorFree(options.secure.GetOr(true), " Secure", "");
    assert " HttpOnly" + "" == " HttpOnly" && " Secure" + "" == " Secure";
    SeparatorFreeAppend(Present(options.httpOnly.GetOr(true), " HttpOnly"), Present(options.secure.GetOr(true), " Secure"));
    assert ';' !in SameSiteText(options.sameSite.GetOr(Strict));
    PresentSeparatorFree(true, " SameSite=", SameSiteText(options.sameSite.GetOr(Strict)));
    SeparatorFreeAppend(Present(options.httpOnly.GetOr(true), " HttpOnly") + Present(options.secure.GetOr(true), " Secure"),
                        [" SameSite=" + SameSiteText(options.sameSite.GetOr(Strict))]);
  }

  /** No attribute segment holds a `;` when the path and domain hold none. */
  lemma AttributesSeparatorFree(options: CookieOptions)
    requires ';' !in options.path.GetOr("/") && ';' !in options.domain.GetOr("")
    ensures SeparatorFree(Attributes(options))
  {
    var path := options.path.GetOr("/");
    var domain := options.domain.GetOr("");
    var maxAge := options.maxAge.GetOr(0);
    var flags := Present(options.httpOnly.GetOr(true), " HttpOnly") + Present(options.secure.GetOr(true), " Secure")
                 + [" SameSite=" + SameSiteText(options.sameSite.GetOr(Strict))];
    FlagsSeparatorFree(options);
    PresentSeparatorFree(path != "", " Path=", path);
    SeparatorFreeAppend(flags, Present(path != "", " Path=" + path));
    PresentSeparatorFree(domain != "", " Domain=", domain);
    SeparatorFreeAppend(flags + Present(path != "", " Path=" + path), Present(domain != "", " Domain=" + domain));
    IntTextSeparatorFree(maxAge);
    PresentSeparatorFree(maxAge != 0, " Max-Age=", IntToString(maxAge));
    SeparatorFreeAppend(flags + Present(path != "", " Path=" + path) + Present(domain != "", " Domain=" + domain),
                        Present(maxAge != 0, " Max-Age=" + IntToString(maxAge)));
  }

  /** When the attribute values hold no `;`, splitting a cookie string at `;`
      gives back exactly `name=encodedValue` and the attribute segments. */
  lemma CookieStringSegments(name: string, value: string, options: CookieOptions, encode: string -> string)
    requires ';' !in name && ';' !in encode(value)
    requires ';' !in options.path.GetOr("/") && ';' !in options.domain.GetOr("")
    ensures Split(CookieString(name, value, options, encode), ';') == [name + "=" + encode(value)] + Attributes(options)
  {
    var pair := name + "=" + encode(value);
    var pieces := [pair] + Attributes(options);
    AttributesSeparatorFree(options);
    assert ';' !in pair;
    assert SeparatorFree([pair]);
    SeparatorFreeAppend([pair], Attributes(options));
    SplitJoin(pieces, ';');
  }

  // ---------------------------------------------------------------------
  // getCookie

  /** The name of a `document.cookie` segment: the text before its first
      `=` once trimmed, or all of the trimmed text when it has no `=`. */
  function CookieNameOf(segment: string): string
  {
    Split(Trim(segment), '=')[0]
  }

  /** The value of a segment: the text between its first and second `=`, or
      the text "undefined" when it has no `=`, which is what decoding an
      absent value gives. */
  function CookieValueOf(segment: string): string
  {
    var parts := Split(Trim(segment), '=');
    if |parts| > 1 then parts[1] else "undefined"
  }

  /** A trimmed segment starts with its name; when it holds a `=` it starts
      with its name, `=` and its value, and otherwise it is all name and
      its value is "undefined". */
  lemma SegmentParts(segment: string)
    ensures '=' !in CookieNameOf(segment) && '=' !in CookieValueOf(segment)
    ensures StartsWith(Trim(segment), CookieNameOf(segment))
    ensures '=' in Trim(segment) ==> StartsWith(Trim(segment), CookieNameOf(segment) + "=" + CookieValueOf(segment))
    ensures '=' !in Trim(segment) ==> CookieNameOf(segment) == Trim(segment) && CookieValueOf(segment) == "undefined"
  {
    var trimmed := Trim(segment);
    var parts := Split(trimmed, '=');
    if |parts| > 1 {
      NameEqualsValue(trimmed, parts);
    } else {
      assert trimmed == parts[0];
    }
  }

  /** A text that splits at `=` into more than one piece starts with its
      first piece, `=` and its second piece. */
  lemma NameEqualsValue(text: string, parts: seq<string>)
    requires parts == Split(text, '=') && |parts| > 1
    ensures StartsWith(text, parts[0] + "=" + parts[1])
  {
    var rest := Join(parts[1..], '=');
    assert text == parts[0] + ['='] + rest;
    assert StartsWith(rest, parts[1]);
    assert (parts[0] + ['='] + rest)[..|parts[0]| + 1 + |parts[1]|] == parts[0] + "=" + parts[1];
  }

  /** The index of the first segment from `from` on with the given name,
      or the number of segments when there is none. */
  function FirstMatchFrom(segments: seq<string>, name: string, from: nat): (k: nat)
    requires from <= |segments|
    ensures from <= k <= |segments|
    ensures forall j {:trigger CookieNameOf(segments[j])} :: from <= j < k ==> CookieNameOf(segments[j]) != name
    ensures k < |segments| ==> CookieNameOf(segments[k]) == name
    decreases |segments| - from
  {
    if from == |segments| then from
    else if CookieNameOf(segments[from]) == name then from
    else FirstMatchFrom(segments, name, from + 1)
  }

  /** The index of the first segment with the given name, or the number of
      segments when there is none. */
  function FirstMatch(segments: seq<string>, name: string): (k: nat)
    ensures k <= |segments|
    ensures forall j {:trigger CookieNameOf(segments[j])} :: 0 <= j < k ==> CookieNameOf(segments[j]) != name
    ensures k < |segments| ==> CookieNameOf(segments[k]) == name
  {
    FirstMatchFrom(segments, name, 0)
  }

  /** Segment `i` is the first one named `name`. */
  predicate FirstNamed(segments: seq<string>, name: string, i: int)
  {
    0 <= i < |segments| && CookieNameOf(segments[i]) == name
    && forall j {:trigger CookieNameOf(segments[j])} :: 0 <= j < i ==> CookieNameOf(segments[j]) != name
  }

  /** The value `getCookie` reports for a cookie header: the decoded value of
      the first segment named `name`, or nothing exactly when no segment
      carries the name. */
  function FindCookie(cookieHeader: string, name: string, decode: string -> string): (r: Option<string>)
    ensures r.None? <==> forall i :: 0 <= i < |Split(cookieHeader, ';')| ==> CookieNameOf(Split(cookieHeader, ';')[i]) != name
    ensures r.Some? ==> exists i :: FirstNamed(Split(cookieHeader, ';'), name, i)
                                    && r.value == decode(CookieValueOf(Split(cookieHeader, ';')[i]))
  {
    var segments := Split(cookieHeader, ';');
    var k := FirstMatch(segments, name);
    if k < |segments| then
      assert FirstNamed(segments, name, k);
      assert CookieNameOf(Split(cookieHeader, ';')[k]) == name;
      Some(decode(CookieValueOf(segments[k])))
    else None
  }

  /** The first segment with a name is the one `FirstMatch` finds. */
  lemma FirstMatchAt(segments: seq<string>, name: string, i: nat)
    requires i < |segments| && CookieNameOf(segments[i]) == name
    requires forall j :: 0 <= j < i ==> CookieNameOf(segments[j]) != name
    ensures FirstMatch(segments, name) == i
  {
  }

  /** A segment that does not match extends the run of non-matching
      segments by one. */
  lemma NoMatchExtends(segments: seq<string>, name: string, i: nat)
    requires i < |segments| && CookieNameOf(segments[i]) != name
    requires forall j {:trigger CookieNameOf(segments[j])} :: 0 <= j < i ==> CookieNameOf(segments[j]) != name
    ensures forall j {:trigger CookieNameOf(segments[j])} :: 0 <= j < i + 1 ==> CookieNameOf(segments[j]) != name
  {
  }

  /** Without a segment of the name, `FirstMatch` runs off the end. */
  lemma FirstMatchNone(segments: seq<string>, name: string)
    requires forall j {:trigger CookieNameOf(segments[j])} :: 0 <= j < |segments| ==> CookieNameOf(segments[j]) != name
    ensures FirstMatch(segments, name) == |segments|
  {
  }

  /** `getCookie`, over the header `document.cookie` would return: split at
      `;`, and for each segment in turn take the trimmed text apart at `=`;
      the first segment whose name matches gives the decoded value. */
  method GetCookie(cookieHeader: string, name: string, decode: string -> string) returns (value: Option<string>)
    ensures value == FindCookie(cookieHeader, name, decode)
  {
    var cookies := Split(cookieHeader, ';');
    for i := 0 to |cookies|
      invariant forall j {:trigger CookieNameOf(cookies[j])} :: 0 <= j < i ==> CookieNameOf(cookies[j]) != name
    {
      var cookieName := CookieNameOf(cookies[i]);
      var cookieValue := CookieValueOf(cookies[i]);
      if cookieName == name {
        FirstMatchAt(cookies, name, i);
        return Some(decode(cookieValue));
      }
      NoMatchExtends(cookies, name, i);
    }
    FirstMatchNone(cookies, name);
    return None;
  }

  /** `getCsrfToken`. */
  method GetCsrfToken(cookieHeader: string, decode: string -> string) returns (token: Option<string>)
    ensures token == FindCookie(cookieHeader, CSRF_TOKEN_NAME, decode)
  {
    token := GetCookie(cookieHeader, CSRF_TOKEN_NAME, decode);
  }

  /** A `name=value` pair of plain texts needs no trimming. */
  lemma PairTrimmed(name: string, encoded: string)
    requires PlainText(name) && PlainText(encoded)
    ensures Trim(name + "=" + encoded) == name + "=" + encoded
  {
    var pair := name + "=" + encoded;
    assert pair[0] == if |name| > 0 then name[0] else '=';
    assert pair[|pair| - 1] == if |encoded| > 0 then encoded[|encoded| - 1] else '=';
    TrimKeeps(pair);
  }

  /** A `name=value` pair of plain texts holds no `;` and comes apart at
      `=` into its name and value. */
  lemma PairParts(name: string, encoded: string)
    requires PlainText(name) && PlainText(encoded)
    ensures ';' !in name + "=" + encoded
    ensures Split(Trim(name + "=" + encoded), '=') == [name, encoded]
  {
    PairTrimmed(name, encoded);
    assert '=' !in name && '=' !in encoded;
    SplitAfterPiece(name, '=', encoded);
    SplitNoSeparator(encoded, '=');
    assert [name] + [encoded] == [name, encoded];
    assert ';' !in name && ';' !in encoded;
  }

  /** The `name=value` pair a cookie string starts with: what the browser
      keeps of a `document.cookie` assignment and lists when the header is
      read. */
  function WrittenPair(cookieString: string): (pair: string)
    ensures ';' !in pair && StartsWith(cookieString, pair)
  {
    Split(cookieString, ';')[0]
  }

  /** The pair of a string `setCookie` wrote is `name=encodedValue`. */
  lemma WrittenPairOf(name: string, value: string, options: CookieOptions, encode: string -> string)
    requires ';' !in name && ';' !in encode(value)
    ensures WrittenPair(CookieString(name, value, options, encode)) == name + "=" + encode(value)
  {
    SplitFirst(name + "=" + encode(value), Attributes(options), ';');
  }

  /** A header segment of plain texts, listed first or after the space that
      follows a `;`, has that name and that value. */
  lemma ListedPairParts(name: string, encoded: string, segment: string)
    requires PlainText(name) && PlainText(encoded)
    requires segment == name + "=" + encoded || segment == " " + (name + "=" + encoded)
    ensures ';' !in segment
    ensures CookieNameOf(segment) == name && CookieValueOf(segment) == encoded
  {
    var pair := name + "=" + encoded;
    PairParts(name, encoded);
    PairTrimmed(name, encoded);
    if segment != pair {
      assert segment[1..] == pair;
      assert TrimStart(segment) == TrimStart(pair);
    }
    assert Trim(segment) == pair;
  }

  /** `getCookie` on a `document.cookie` header: the pairs joined at `;`.
      When the first pair with the name is `name=encoded`, listed first or
      after a space, the decoded `encoded` is found. */
  lemma HeaderLookup(pairs: seq<string>, i: nat, name: string, encoded: string, decode: string -> string)
    requires i < |pairs| && SeparatorFree(pairs)
    requires PlainText(name) && PlainText(encoded)
    requires pairs[i] == name + "=" + encoded || pairs[i] == " " + (name + "=" + encoded)
    requires forall j :: 0 <= j < i ==> CookieNameOf(pairs[j]) != name
    ensures FindCookie(Join(pairs, ';'), name, decode) == Some(decode(encoded))
  {
    SplitJoin(pairs, ';');
    ListedPairParts(name, encoded, pairs[i]);
    FirstMatchAt(pairs, name, i);
  }

  /** A cookie `setCookie` wrote reads back as the value it was given, from
      any header that lists its pair before any other pair of the same name,
      provided the name and the encoded value are plain text and decoding
      undoes encoding. */
  lemma CookieRoundTrip(name: string, value: string, options: CookieOptions, encode: string -> string,
                        decode: string -> string, pairs: seq<string>, i: nat)
    requires PlainText(name) && PlainText(encode(value)) && decode(encode(value)) == value
    requires i < |pairs| && SeparatorFree(pairs)
    requires var pair := WrittenPair(CookieString(name, value, options, encode));
             pairs[i] == pair || pairs[i] == " " + pair
    requires forall j :: 0 <= j < i ==> CookieNameOf(pairs[j]) != name
    ensures FindCookie(Join(pairs, ';'), name, decode) == Some(value)
  {
    PairParts(name, encode(value));
    WrittenPairOf(name, value, options, encode);
    HeaderLookup(pairs, i, name, encode(value), decode);
  }

  /** The CSRF cookie's name holds no `;`, `=` or whitespace. */
  lemma CsrfNameIsPlain()
    ensures PlainText(CSRF_TOKEN_NAME)
  {
  }

  /** A CSRF token holds no `;`, `=` or whitespace. */
  lemma CsrfTokenIsPlain(randomBytes: seq<byte>)
    requires |randomBytes| == CSRF_TOKEN_BYTES
    ensures PlainText(CsrfToken(randomBytes))
  {
    var token := CsrfToken(randomBytes);
    forall k | 0 <= k < |token|
      ensures token[k] != ';' && token[k] != '=' && !IsJsWhitespace(token[k])
    {
      assert IsLowerHexDigit(token[k]);
    }
  }

  /** The CSRF cookie `setAuthTokens` writes reads back as the token from a
      header that lists it, when `encodeURIComponent` and
      `decodeURIComponent` leave hexadecimal text as it is. */
  lemma CsrfCookieReadsBack(accessToken: string, refreshToken: string, expiresIn: int, randomBytes: seq<byte>,
                            encode: string -> string, decode: string -> string, pairs: seq<string>, i: nat)
    requires |randomBytes| == CSRF_TOKEN_BYTES
    requires encode(CsrfToken(randomBytes)) == CsrfToken(randomBytes)
    requires decode(CsrfToken(randomBytes)) == CsrfToken(randomBytes)
    requires i < |pairs| && SeparatorFree(pairs)
    requires var pair := WrittenPair(AuthTokenWrites(accessToken, refreshToken, expiresIn, CsrfToken(randomBytes), encode)[2]);
             pairs[i] == pair || pairs[i] == " " + pair
    requires forall j :: 0 <= j < i ==> CookieNameOf(pairs[j]) != CSRF_TOKEN_NAME
    ensures FindCookie(Join(pairs, ';'), CSRF_TOKEN_NAME, decode) == Some(CsrfToken(randomBytes))
  {
    var token := CsrfToken(randomBytes);
    CsrfTokenIsPlain(randomBytes);
    CsrfNameIsPlain();
    assert AuthTokenWrites(accessToken, refreshToken, expiresIn, token, encode)[2]
           == CookieString(CSRF_TOKEN_NAME, token, CsrfTokenOptions(expiresIn), encode);
    CookieRoundTrip(CSRF_TOKEN_NAME, token, CsrfTokenOptions(expiresIn), encode, decode, pairs, i);
  }

  // ---------------------------------------------------------------------
  // The cookie jar

  /** `document.cookie` seen as the sequence of strings assigned to it. */
  class CookieJar {
    /** `encodeURIComponent`. */
    const encode: string -> string
    var writes: seq<string>

    constructor(encode: string -> string)
      ensures this.encode == encode && writes == []
    {
      this.encode := encode;
      writes := [];
    }

    /** `setCookie`: one assignment of the rendered cookie string. */
    method SetCookie(name: string, value: string, options: CookieOptions)
      modifies this
      ensures writes == old(writes) + [CookieString(name, value, options, encode)]
    {
      var cookieString := BuildCookieString(name, value, options, encode);
      writes := writes + [cookieString];
    }

    /** `removeCookie`: an empty value with a max-age of 0. */
    method RemoveCookie(name: string)
      modifies this
      ensures writes == old(writes) + [CookieString(name, "", REMOVAL_OPTIONS, encode)]
    {
      SetCookie(name, "", REMOVAL_OPTIONS);
    }

    /** `setAuthTokens`: the access token, the refresh token and a fresh CSRF
        token made from `randomBytes`, in that order. */
    method SetAuthTokens(accessToken: string, refreshToken: string, expiresIn: int, randomBytes: seq<byte>)
      requires |randomBytes| == CSRF_TOKEN_BYTES
      modifies this
      ensures writes == old(writes) + AuthTokenWrites(accessToken, refreshToken, expiresIn, CsrfToken(randomBytes), encode)
    {
      SetCookie(ACCESS_TOKEN_NAME, accessToken, AccessTokenOptions(expiresIn));
      SetCookie(REFRESH_TOKEN_NAME, refreshToken, REFRESH_TOKEN_OPTIONS);
      var csrfToken := CsrfToken(randomBytes);
      SetCookie(CSRF_TOKEN_NAME, csrfToken, CsrfTokenOptions(expiresIn));
    }

    /** `clearAuthTokens`: removes the three session cookies. */
    method ClearAuthTokens()
      modifies this
      ensures writes == old(writes) + ClearTokenWrites(encode)
    {
      RemoveCookie(ACCESS_TOKEN_NAME);
      RemoveCookie(REFRESH_TOKEN_NAME);
      RemoveCookie(CSRF_TOKEN_NAME);
    }
  }
}
