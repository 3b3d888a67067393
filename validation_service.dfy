/**
 * ValidationService: deriving the stored form of an API key (the lower-case
 * hex of its SHA-256 digest), authenticating a presented key against the
 * tenants table, the admin guard, and the email format check.  Nothing here
 * writes to the store.
 */
module ValidationService {
  import opened Common
  import opened Entities
  import opened Crypto
  import opened Repositories

  // ----- the hex form of a digest -----

  /** The byte as `%x` reads it: a negative byte counts from 256 down. */
  function Unsigned(b: JByte): (u: nat)
    ensures u < 256 && (u - b) % 256 == 0
  {
    if b < 0 then b + 256 else b
  }

  predicate IsLowerHexDigit(c: char)
  {
    '0' <= c <= '9' || 'a' <= c <= 'f'
  }

  /** A nibble as a lower-case hex digit. */
  function HexDigit(n: nat): (c: char)
    requires n < 16
    ensures IsLowerHexDigit(c)
  {
    if n < 10 then ('0' as int + n) as char else ('a' as int + n - 10) as char
  }

  /** The value of a lower-case hex digit (0 for any other character). */
  function HexValue(c: char): (n: nat)
    ensures n < 16
  {
    if '0' <= c <= '9' then c as int - '0' as int
    else if 'a' <= c <= 'f' then c as int - 'a' as int + 10
    else 0
  }

  /** `String.format("%02x", b)`: always two digits, zero-padded. */
  function FormatByte(b: JByte): (h: string)
    ensures |h| == 2 && IsLowerHexDigit(h[0]) && IsLowerHexDigit(h[1])
    ensures 16 * HexValue(h[0]) + HexValue(h[1]) == Unsigned(b)
  {
    [HexDigit(Unsigned(b) / 16), HexDigit(Unsigned(b) % 16)]
  }

  /** The text the loop of `hashApiKey` builds: each byte's two digits,
      appended in order. */
  function HexEncode(bytes: seq<JByte>): (h: string)
    ensures |h| == 2 * |bytes|
  {
    if bytes == [] then ""
    else HexEncode(bytes[..|bytes| - 1]) + FormatByte(bytes[|bytes| - 1])
  }

  /** Every character of the hex form is a lower-case hex digit. */
  lemma {:induction false} HexEncodeDigits(bytes: seq<JByte>)
    ensures forall i :: 0 <= i < |HexEncode(bytes)| ==> IsLowerHexDigit(HexEncode(bytes)[i])
  {
    if bytes != [] {
      var init := bytes[..|bytes| - 1];
      HexEncodeDigits(init);
      var front, pair := HexEncode(init), FormatByte(bytes[|bytes| - 1]);
      assert HexEncode(bytes) == front + pair;
    }
  }

  /** Two hex digits read back as a signed byte. */
  function ParseByte(hi: char, lo: char): JByte
  {
    var u := 16 * HexValue(hi) + HexValue(lo);
    if u < 128 then u else u - 256
  }

  /** Hex text read back two digits at a time. */
  function HexDecode(h: string): (bytes: seq<JByte>)
    ensures |bytes| == |h| / 2
  {
    if |h| < 2 then []
    else HexDecode(h[..|h| - 2]) + [ParseByte(h[|h| - 2], h[|h| - 1])]
  }

  /** The two digits of a byte read back as that byte. */
  lemma ParseFormatted(b: JByte)
    ensures ParseByte(FormatByte(b)[0], FormatByte(b)[1]) == b
  {
  }

  /** Decoding takes the last two digits off as one byte. */
  lemma DecodeAppend(h: string, pair: string)
    requires |pair| == 2
    ensures HexDecode(h + pair) == HexDecode(h) + [ParseByte(pair[0], pair[1])]
  {
    var whole := h + pair;
    assert whole[..|whole| - 2] == h;
  }

  /** The hex form loses nothing: decoding it gives the digest back. */
  lemma {:induction false} HexRoundTrip(bytes: seq<JByte>)
    ensures HexDecode(HexEncode(bytes)) == bytes
  {
    if bytes != [] {
      var init, last := bytes[..|bytes| - 1], bytes[|bytes| - 1];
      var front, pair := HexEncode(init), FormatByte(last);
      assert HexEncode(bytes) == front + pair;
      DecodeAppend(front, pair);
      ParseFormatted(last);
      HexRoundTrip(init);
      assert init + [last] == bytes;
    }
  }

  /** Distinct digests have distinct hex forms. */
  lemma HexEncodeInjective(a: seq<JByte>, b: seq<JByte>)
    ensures HexEncode(a) == HexEncode(b) ==> a == b
  {
    HexRoundTrip(a);
    HexRoundTrip(b);
  }

  /** The value `hashApiKey(apiKey)` returns. */
  function ApiKeyHash(crypto: Primitives, apiKey: string): string
  {
    HexEncode(crypto.sha256(apiKey))
  }

  /** Two keys hash to the same stored text exactly when their digests
      agree: the hex step adds no collisions. */
  lemma ApiKeyHashCollisions(crypto: Primitives, k1: string, k2: string)
    ensures ApiKeyHash(crypto, k1) == ApiKeyHash(crypto, k2) <==> crypto.sha256(k1) == crypto.sha256(k2)
  {
    HexEncodeInjective(crypto.sha256(k1), crypto.sha256(k2));
  }

  /** `hashApiKey`: 64 lower-case hex digits, two per digest byte. */
  method HashApiKey(crypto: Primitives, apiKey: string) returns (hex: string)
    ensures hex == ApiKeyHash(crypto, apiKey)
    ensures |hex| == 64 && forall i :: 0 <= i < |hex| ==> IsLowerHexDigit(hex[i])
  {
    var hashed := crypto.sha256(apiKey);
    hex := "";
    for i := 0 to |hashed|
      invariant hex == HexEncode(hashed[..i])
    {
      assert hashed[..i + 1][..i] == hashed[..i];
      hex := hex + FormatByte(hashed[i]);
    }
    assert hashed[..|hashed|] == hashed;
    HexEncodeDigits(hashed);
  }

  // ----- authentication -----

  /** The tenant whose stored hash is `apiKeyHash`, if there is one. */
  ghost function KeyOwner(tenants: map<Id, Tenant>, apiKeyHash: string): (owner: Option<Id>)
    ensures owner.None? <==> forall t :: t in tenants ==> tenants[t].apiKey != apiKeyHash
    ensures owner.Some? ==> owner.value in tenants && tenants[owner.value].apiKey == apiKeyHash
  {
    if forall t :: t in tenants ==> tenants[t].apiKey != apiKeyHash then None
    else Some(var t :| t in tenants && tenants[t].apiKey == apiKeyHash; t)
  }

  /** With unique `apiKey` values, a stored hash authenticates its own row. */
  lemma KeyOwnerIsTheRow(tenants: map<Id, Tenant>, t: Id)
    requires TenantsUnique(tenants) && t in tenants
    ensures KeyOwner(tenants, tenants[t].apiKey) == Some(t)
  {
    var owner := KeyOwner(tenants, tenants[t].apiKey);
    assert TenantsShare(tenants, owner.value, t);
  }

  /** `validateApiKey`: the tenant the key's hash names, or Unauthorized. */
  method ValidateApiKey(db: Store, crypto: Primitives, apiKey: string) returns (r: Result<Id>)
    requires db.Valid()
    ensures KeyOwner(db.tenants, ApiKeyHash(crypto, apiKey)).None? ==>
      r == Err(ServiceError(Unauthorized, "Invalid API Key"))
    ensures KeyOwner(db.tenants, ApiKeyHash(crypto, apiKey)).Some? ==>
      r == Ok(KeyOwner(db.tenants, ApiKeyHash(crypto, apiKey)).value)
    ensures r.Ok? ==> r.value in db.tenants && db.tenants[r.value].apiKey == ApiKeyHash(crypto, apiKey)
  {
    var hashed := HashApiKey(crypto, apiKey);
    if forall t :: t in db.tenants ==> db.tenants[t].apiKey != hashed {
      return Err(ServiceError(Unauthorized, "Invalid API Key"));
    }
    var t :| t in db.tenants && db.tenants[t].apiKey == hashed;
    KeyOwnerIsTheRow(db.tenants, t);
    return Ok(t);
  }

  /** `isAdminEmail`: the administrators' addresses are fixed in the code;
      they are `admin<d>@example.com` for a digit `d` from 1 to 3, and no
      other string. */
  predicate IsAdminEmail(email: string)
    ensures IsAdminEmail(email) <==>
      |email| == 18 && email[..5] == "admin" && '1' <= email[5] <= '3' && email[6..] == "@example.com"
  {
    email == "admin1@example.com" || email == "admin2@example.com" || email == "admin3@example.com"
  }

  /** `validateAdminApiKey`: first the key must name a tenant, then that
      tenant's email must be on the allowlist. */
  method ValidateAdminApiKey(db: Store, crypto: Primitives, apiKey: string) returns (r: Outcome)
    requires db.Valid()
    ensures KeyOwner(db.tenants, ApiKeyHash(crypto, apiKey)).None? ==>
      r == Fail(ServiceError(Unauthorized, "Invalid API Key"))
    ensures r == Pass <==>
      && KeyOwner(db.tenants, ApiKeyHash(crypto, apiKey)).Some?
      && IsAdminEmail(db.tenants[KeyOwner(db.tenants, ApiKeyHash(crypto, apiKey)).value].email)
    ensures KeyOwner(db.tenants, ApiKeyHash(crypto, apiKey)).Some? && r != Pass ==>
      r == Fail(ServiceError(Unauthorized, "Unauthorized To Perform This Action"))
  {
    var found := ValidateApiKey(db, crypto, apiKey);
    if found.Err? {
      return Fail(found.failure);
    }
    if !IsAdminEmail(db.tenants[found.value].email) {
      return Fail(ServiceError(Unauthorized, "Unauthorized To Perform This Action"));
    }
    return Pass;
  }

  // ----- email format -----

  predicate IsLetter(c: char)
  {
    'A' <= c <= 'Z' || 'a' <= c <= 'z'
  }

  predicate IsDigit(c: char)
  {
    '0' <= c <= '9'
  }

  /** The class `[A-Za-z0-9._%+-]` of the local part. */
  predicate IsLocalChar(c: char)
  {
    IsLetter(c) || IsDigit(c) || c == '.' || c == '_' || c == '%' || c == '+' || c == '-'
  }

  /** The class `[A-Za-z0-9.-]` of the domain. */
  predicate IsDomainChar(c: char)
  {
    IsLetter(c) || IsDigit(c) || c == '.' || c == '-'
  }

  /** `s` is a non-empty local part before index `at`, '@' at `at`, a
      non-empty domain up to index `dot`, '.' at `dot`, and 2 to 6 letters
      after it to the end. */
  predicate EmailSplit(s: string, at: int, dot: int)
  {
    && 0 < at && at + 1 < dot && dot + 3 <= |s| <= dot + 7
    && s[at] == '@' && s[dot] == '.'
    && (forall i :: 0 <= i < at ==> IsLocalChar(s[i]))
    && (forall i :: at < i < dot ==> IsDomainChar(s[i]))
    && (forall i :: dot < i < |s| ==> IsLetter(s[i]))
  }

  /** The strings `EMAIL_REGEX` matches as a whole (`Matcher.matches`):
      some way of cutting them fits the pattern. */
  ghost predicate MatchesEmailRegex(s: string)
  {
    exists at, dot :: EmailSplit(s, at, dot)
  }

  /** The first index of `c` in `s`, or `|s|` when `c` does not occur. */
  function FirstIndexOf(s: string, c: char): (k: nat)
    ensures k <= |s| && (k < |s| ==> s[k] == c)
    ensures forall i :: 0 <= i < k ==> s[i] != c
  {
    if s == [] || s[0] == c then 0 else 1 + FirstIndexOf(s[1..], c)
  }

  /** The last index of `c` in `s`, or -1 when `c` does not occur. */
  function LastIndexOf(s: string, c: char): (k: int)
    ensures -1 <= k < |s| && (0 <= k ==> s[k] == c)
    ensures forall i :: k < i < |s| ==> s[i] != c
  {
    if s == [] then -1
    else if s[|s| - 1] == c then |s| - 1
    else LastIndexOf(s[..|s| - 1], c)
  }

  /** A matcher for the pattern that tries one cut only: no character class
      admits '@', so the '@' must be the first one, and the top-level
      domain admits no '.', so the '.' before it must be the last one. */
  predicate IsEmail(s: string)
  {
    EmailSplit(s, FirstIndexOf(s, '@'), LastIndexOf(s, '.'))
  }

  /** The one-cut matcher accepts exactly the strings the pattern matches. */
  lemma IsEmailMatchesRegex(s: string)
    ensures IsEmail(s) <==> MatchesEmailRegex(s)
  {
    if MatchesEmailRegex(s) {
      var at, dot :| EmailSplit(s, at, dot);
      var first := FirstIndexOf(s, '@');
      assert first == at;
      var last := LastIndexOf(s, '.');
      assert last == dot;
    }
  }

  /** `validateEmail`: a missing address or one the pattern does not match
      is rejected. */
  function ValidateEmail(email: Option<string>): (r: Outcome)
    ensures r == Pass <==> email.Some? && MatchesEmailRegex(email.value)
    ensures r != Pass ==> r == Fail(ServiceError(InvalidEmail, "Invalid email format"))
  {
    if email.None? then Fail(ServiceError(InvalidEmail, "Invalid email format"))
    else
      IsEmailMatchesRegex(email.value);
      if IsEmail(email.value) then Pass else Fail(ServiceError(InvalidEmail, "Invalid email format"))
  }

  /** How often `c` occurs in `s`. */
  function CountOf(s: string, c: char): nat
  {
    if s == [] then 0 else (if s[0] == c then 1 else 0) + CountOf(s[1..], c)
  }

  lemma {:induction false} CountOfAbsent(s: string, c: char)
    requires forall i :: 0 <= i < |s| ==> s[i] != c
    ensures CountOf(s, c) == 0
  {
    if s != [] {
      CountOfAbsent(s[1..], c);
    }
  }

  /** A character found at index `k` and nowhere else occurs once. */
  lemma {:induction false} CountOfSingle(s: string, k: nat, c: char)
    requires k < |s| && s[k] == c
    requires forall i :: 0 <= i < |s| && i != k ==> s[i] != c
    ensures CountOf(s, c) == 1
  {
    if k == 0 {
      CountOfAbsent(s[1..], c);
    } else {
      CountOfSingle(s[1..], k - 1, c);
    }
  }

  /** An accepted address holds exactly one '@', with something on either
      side, and ends in '.' followed by 2 to 6 letters. */
  lemma AcceptedEmailShape(s: string)
    requires MatchesEmailRegex(s)
    ensures CountOf(s, '@') == 1
    ensures 0 < FirstIndexOf(s, '@') && FirstIndexOf(s, '@') + 1 < LastIndexOf(s, '.')
    ensures 2 <= |s| - LastIndexOf(s, '.') - 1 <= 6
    ensures forall i :: LastIndexOf(s, '.') < i < |s| ==> IsLetter(s[i])
  {
    IsEmailMatchesRegex(s);
    var at := FirstIndexOf(s, '@');
    assert forall i :: 0 <= i < |s| && i != at ==> s[i] != '@';
    CountOfSingle(s, at, '@');
  }

  /** The administrators' addresses are themselves well formed. */
  lemma AdminEmailsWellFormed(email: string)
    requires IsAdminEmail(email)
    ensures ValidateEmail(Some(email)) == Pass
  {
    var d := if email == "admin1@example.com" then '1' else if email == "admin2@example.com" then '2' else '3';
    assert email == "admin" + [d] + "@example.com";
    AdminAddressMatches(d);
  }

  /** `admin<d>@example.com` splits at its `@` and its last `.`. */
  lemma AdminAddressMatches(d: char)
    requires IsDigit(d)
    ensures MatchesEmailRegex("admin" + [d] + "@example.com")
  {
    var s := "admin" + [d] + "@example.com";
    assert forall i :: 0 <= i < 6 ==> IsLocalChar(s[i]);
    assert forall i :: 6 < i < 14 ==> IsDomainChar(s[i]);
    assert EmailSplit(s, 6, 14);
  }
}
