/**
 The viewer tokens of the relay: issued as "<session token>.<expiry>.<signature>" (server/signal.go,
 lines 46-77) and validated (server/auth.go, lines 31-56).

 The keyed hash is an uninterpreted function on strings; its hexadecimal form is modelled. Clock readings
 are parameters: nanoseconds since the epoch where a token is issued, seconds where it is validated.
 */
module ViewerToken {
  import opened Wrappers
  import opened Bytes

  type Mac = (string, string) -> seq<byte>

  // ---- Dots ----

  predicate DotFree(s: string) {
    '.' !in s
  }

  /** strings.Split at dots: always one piece more than there are dots. */
  function Split(s: string): (parts: seq<string>)
    ensures |parts| >= 1
  {
    if s == [] then [[]]
    else
      var rest := Split(s[1..]);
      if s[0] == '.' then [[]] + rest else [[s[0]] + rest[0]] + rest[1..]
  }

  function Join(parts: seq<string>): string
    requires |parts| >= 1
  {
    if |parts| == 1 then parts[0] else parts[0] + "." + Join(parts[1..])
  }

  lemma {:induction false} SplitWhole(s: string)
    requires DotFree(s)
    ensures Split(s) == [s]
  {
    if s != [] {
      SplitWhole(s[1..]);
      assert [s[0]] + s[1..] == s;
    }
  }

  lemma {:induction false} SplitFirst(a: string, rest: string)
    requires DotFree(a)
    ensures Split(a + "." + rest) == [a] + Split(rest)
  {
    var s := a + "." + rest;
    if a == [] {
      assert s[1..] == rest;
    } else {
      SplitFirst(a[1..], rest);
      assert s[1..] == a[1..] + "." + rest;
      assert [a[0]] + a[1..] == a;
    }
  }

  lemma {:induction false} SplitJoin(s: string)
    ensures Join(Split(s)) == s && forall p | p in Split(s) :: DotFree(p)
  {
    if s != [] {
      SplitJoin(s[1..]);
      var rest := Split(s[1..]);
      if s[0] == '.' {
        assert Split(s)[1..] == rest;
      } else {
        assert Split(s)[1..] == rest[1..];
        assert rest == [rest[0]] + rest[1..] && rest[0] in rest;
        forall p | p in Split(s) ensures DotFree(p) {
          assert p == [s[0]] + rest[0] || p in rest;
        }
      }
    }
  }

  function Dots(s: string): nat {
    if s == [] then 0 else (if s[0] == '.' then 1 else 0) + Dots(s[1..])
  }

  lemma {:induction false} SplitCount(s: string)
    ensures |Split(s)| == Dots(s) + 1
  {
    if s != [] { SplitCount(s[1..]); }
  }

  lemma {:induction false} DotsConcat(a: string, b: string)
    ensures Dots(a + b) == Dots(a) + Dots(b)
  {
    if a == [] {
      assert a + b == b;
    } else {
      DotsConcat(a[1..], b);
      assert (a + b)[1..] == a[1..] + b;
    }
  }

  lemma {:induction false} NoDots(s: string)
    ensures DotFree(s) <==> Dots(s) == 0
  {
    if s != [] {
      NoDots(s[1..]);
      assert s == [s[0]] + s[1..];
    }
  }

  // ---- Decimal numbers ----

  const INT64_MIN := -0x8000_0000_0000_0000
  const INT64_MAX := 0x7fff_ffff_ffff_ffff

  predicate InInt64(n: int) {
    INT64_MIN <= n <= INT64_MAX
  }

  function DigitChar(d: nat): char
    requires d < 10
  {
    '0' + d as char
  }

  predicate IsDigit(c: char) {
    '0' <= c <= '9'
  }

  function Digits(n: nat): (s: string)
    ensures s != [] && IsDigit(s[0])
  {
    if n < 10 then [DigitChar(n)] else Digits(n / 10) + [DigitChar(n % 10)]
  }

  /** strconv.FormatInt to base ten. */
  function FormatInt(n: int): string {
    if n < 0 then "-" + Digits(-n) else Digits(n)
  }

  function DigitValue(c: char): nat
    requires IsDigit(c)
  {
    c as nat - '0' as nat
  }

  /** The value of a string of digits. */
  function Value(s: string): nat
    requires forall c | c in s :: IsDigit(c)
  {
    if s == [] then 0 else Value(s[..|s| - 1]) * 10 + DigitValue(s[|s| - 1])
  }

  /** White space as the scanner of package fmt knows it. */
  predicate IsSpace(c: char) {
    || '\t' <= c <= '\r' || c == ' ' || c == '\U{85}' || c == '\U{A0}' || c == '\U{1680}'
    || '\U{2000}' <= c <= '\U{200A}' || c == '\U{2028}' || c == '\U{2029}' || c == '\U{202F}'
    || c == '\U{205F}' || c == '\U{3000}'
  }

  /** Leading white space is skipped, but a newline is an error. */
  function SkipSpace(s: string): Option<string> {
    if s == [] then Some([])
    else if s[0] == '\n' then None
    else if IsSpace(s[0]) then SkipSpace(s[1..])
    else Some(s)
  }

  function LeadingDigits(s: string): (k: nat)
    ensures k <= |s| && forall c | c in s[..k] :: IsDigit(c)
  {
    if s == [] || !IsDigit(s[0]) then 0
    else
      var k := 1 + LeadingDigits(s[1..]);
      assert s[..k] == [s[0]] + s[1..][..k - 1];
      k
  }

  /** fmt.Sscanf with "%d" into a 64-bit integer: an optional sign and at least one digit; what follows
      the digits is ignored. */
  function ScanInt(s: string): Option<int> {
    match SkipSpace(s)
    case None => None
    case Some(t) =>
      var signed := t != [] && (t[0] == '-' || t[0] == '+');
      var u := if signed then t[1..] else t;
      var k := LeadingDigits(u);
      if k == 0 then None
      else
        var magnitude: int := Value(u[..k]);
        var v := if signed && t[0] == '-' then -magnitude else magnitude;
        if InInt64(v) then Some(v) else None
  }

  lemma {:induction false} DigitsRead(n: nat)
    ensures forall c | c in Digits(n) :: IsDigit(c)
    ensures Value(Digits(n)) == n
  {
    if n >= 10 {
      DigitsRead(n / 10);
      var s := Digits(n);
      assert s[..|s| - 1] == Digits(n / 10) && s[|s| - 1] == DigitChar(n % 10);
    }
  }

  lemma {:induction false} AllLeading(s: string)
    requires forall c | c in s :: IsDigit(c)
    ensures LeadingDigits(s) == |s|
  {
    if s != [] {
      assert s[0] in s;
      forall c | c in s[1..] ensures c in s { }
      AllLeading(s[1..]);
    }
  }

  lemma DigitsScan(m: nat)
    ensures var d := Digits(m); d != [] && LeadingDigits(d) == |d| && d[..|d|] == d && IsDigit(d[0])
  {
    DigitsRead(m);
    AllLeading(Digits(m));
    assert Digits(m)[0] in Digits(m);
  }

  lemma DigitsDotFree(m: nat)
    ensures DotFree(Digits(m)) && DotFree("-" + Digits(m))
  {
    DigitsRead(m);
    var s := "-" + Digits(m);
    forall c | c in s ensures c != '.' { assert c == '-' || c in Digits(m); }
  }

  lemma ScanUnsigned(m: nat)
    requires m <= INT64_MAX
    ensures ScanInt(Digits(m)) == Some(m)
  {
    DigitsRead(m);
    DigitsScan(m);
    assert SkipSpace(Digits(m)) == Some(Digits(m));
  }

  lemma ScanNegative(n: int)
    requires INT64_MIN <= n < 0
    ensures ScanInt("-" + Digits(-n)) == Some(n)
  {
    var m: nat := -n;
    var s := "-" + Digits(m);
    DigitsRead(m);
    DigitsScan(m);
    assert SkipSpace(s) == Some(s);
    assert s[1..] == Digits(m);
  }

  /** Scanning what was printed gives the number back, and the printed form has no dot. */
  lemma PrintScan(n: int)
    requires InInt64(n)
    ensures ScanInt(FormatInt(n)) == Some(n) && DotFree(FormatInt(n))
  {
    if n < 0 {
      ScanNegative(n);
      DigitsDotFree(-n);
    } else {
      ScanUnsigned(n);
      DigitsDotFree(n);
    }
  }

  const DECIMAL := "0123456789"

  /** The printed form is decimal: one digit more at the end multiplies by ten. */
  lemma DecimalDigits(n: int, d: nat)
    requires n >= 0 && d < 10
    ensures FormatInt(d) == [DECIMAL[d]]
    ensures n > 0 ==> FormatInt(10 * n + d) == FormatInt(n) + [DECIMAL[d]]
    ensures n > 0 ==> FormatInt(-n) == "-" + FormatInt(n)
  {
    assert forall i: nat | i < 10 :: DECIMAL[i] == DigitChar(i);
    if n > 0 { assert (10 * n + d) / 10 == n && (10 * n + d) % 10 == d; }
  }

  lemma {:induction false} LeadingThenOther(s: string, junk: string)
    requires forall c | c in s :: IsDigit(c)
    requires junk != [] ==> !IsDigit(junk[0])
    ensures LeadingDigits(s + junk) == |s|
  {
    if s == [] {
      assert s + junk == junk;
    } else {
      assert s[0] in s && (s + junk)[1..] == s[1..] + junk;
      forall c | c in s[1..] ensures c in s { }
      LeadingThenOther(s[1..], junk);
    }
  }

  predicate NoDigitFirst(s: string) {
    s == [] || !IsDigit(s[0])
  }

  function IfFits(v: int): Option<int> {
    if InInt64(v) then Some(v) else None
  }

  lemma UnsignedThen(m: nat, junk: string)
    requires NoDigitFirst(junk)
    ensures ScanInt(Digits(m) + junk) == IfFits(m)
  {
    var d := Digits(m);
    var t := d + junk;
    DigitsRead(m);
    LeadingThenOther(d, junk);
    assert d[0] in d && t[0] == d[0];
    assert SkipSpace(t) == Some(t);
    assert t[..|d|] == d;
  }

  lemma SignedThen(m: int, sign: char, junk: string)
    requires m >= 0 && (sign == '+' || sign == '-') && NoDigitFirst(junk)
    ensures ScanInt([sign] + Digits(m) + junk) == IfFits(if sign == '-' then -m else m)
  {
    var d := Digits(m);
    var t := [sign] + d + junk;
    DigitsRead(m);
    LeadingThenOther(d, junk);
    var u := d + junk;
    assert t[0] == sign && t[1..] == u && u[..|d|] == d;
    assert SkipSpace(t) == Some(t);
    assert LeadingDigits(u) == |d| && Value(u[..|d|]) == m;
  }

  lemma SpaceSkipped(t: string)
    ensures ScanInt(" " + t) == ScanInt(t)
  {
    assert (" " + t)[1..] == t;
    assert SkipSpace(" " + t) == SkipSpace(t);
  }

  /** The scanner is looser than the printer: it takes a plus sign, skips spaces in front, ignores what
      follows the digits, and refuses only what does not fit 64 bits. */
  lemma ScanLoosely(m: int, sign: char, junk: string)
    requires m >= 0 && (sign == '+' || sign == '-') && NoDigitFirst(junk)
    ensures ScanInt(Digits(m) + junk) == ScanInt(" " + (Digits(m) + junk)) == IfFits(m)
    ensures ScanInt([sign] + Digits(m) + junk) == IfFits(if sign == '-' then -m else m)
  {
    UnsignedThen(m, junk);
    SpaceSkipped(Digits(m) + junk);
    SignedThen(m, sign, junk);
  }

  // ---- Signatures ----

  function HexChar(d: nat): char
    requires d < 16
  {
    if d < 10 then '0' + d as char else 'a' + (d - 10) as char
  }

  function Hex(s: seq<byte>): string {
    if s == [] then [] else [HexChar(s[0] / 16), HexChar(s[0] % 16)] + Hex(s[1..])
  }

  lemma {:induction false} HexDotFree(s: seq<byte>)
    ensures DotFree(Hex(s))
  {
    if s != [] { HexDotFree(s[1..]); }
  }

  const HEXADECIMAL := "0123456789abcdef"

  /** The string spells the bytes in hexadecimal, two digits for each. */
  ghost predicate Spells(h: string, s: seq<byte>) {
    |h| == 2 * |s| &&
    forall i: nat | i < |s| :: h[2 * i] == HEXADECIMAL[s[i] / 16] && h[2 * i + 1] == HEXADECIMAL[s[i] % 16]
  }

  lemma HexChars(d: nat)
    requires d < 16
    ensures HexChar(d) == HEXADECIMAL[d]
  {
    assert forall i: nat | i < 10 :: HEXADECIMAL[i] == '0' + i as char;
    assert forall i: nat | 10 <= i < 16 :: HEXADECIMAL[i] == 'a' + (i - 10) as char;
  }

  lemma {:induction false} HexLength(s: seq<byte>)
    ensures |Hex(s)| == 2 * |s|
  {
    if s != [] { HexLength(s[1..]); }
  }

  lemma {:induction false} HexAt(s: seq<byte>, i: nat)
    requires i < |s|
    ensures |Hex(s)| == 2 * |s|
    ensures Hex(s)[2 * i] == HEXADECIMAL[s[i] / 16] && Hex(s)[2 * i + 1] == HEXADECIMAL[s[i] % 16]
  {
    HexLength(s);
    if i == 0 {
      HexChars(s[0] / 16);
      HexChars(s[0] % 16);
    } else {
      HexAt(s[1..], i - 1);
      assert Hex(s)[2 * i] == Hex(s[1..])[2 * (i - 1)] && Hex(s)[2 * i + 1] == Hex(s[1..])[2 * (i - 1) + 1];
    }
  }

  lemma HexSpells(s: seq<byte>)
    ensures Spells(Hex(s), s)
  {
    HexLength(s);
    forall i: nat | i < |s|
      ensures Hex(s)[2 * i] == HEXADECIMAL[s[i] / 16] && Hex(s)[2 * i + 1] == HEXADECIMAL[s[i] % 16]
    {
      HexAt(s, i);
    }
  }

  lemma HexDigitsDiffer(d: nat, e: nat)
    requires d < 16 && e < 16 && HexChar(d) == HexChar(e)
    ensures d == e
  {
  }

  /** Different bytes have different signatures: nothing of the hash is lost in printing it. */
  lemma {:induction false} HexInjective(s: seq<byte>, t: seq<byte>)
    ensures Hex(s) == Hex(t) <==> s == t
    ensures |Hex(s)| == 2 * |s|
  {
    HexSpells(s);
    HexSpells(t);
    if Hex(s) == Hex(t) && s != [] {
      var h, g := Hex(s), Hex(t);
      assert h[0] == HexChar(s[0] / 16) && h[1] == HexChar(s[0] % 16) && h[2..] == Hex(s[1..]);
      assert g[0] == HexChar(t[0] / 16) && g[1] == HexChar(t[0] % 16) && g[2..] == Hex(t[1..]);
      HexDigitsDiffer(s[0] / 16, t[0] / 16);
      HexDigitsDiffer(s[0] % 16, t[0] % 16);
      HexInjective(s[1..], t[1..]);
      assert s == [s[0]] + s[1..] && t == [t[0]] + t[1..];
    }
  }

  lemma SpelledOnce(h: string, s: seq<byte>)
    requires Spells(h, s)
    ensures h == Hex(s)
  {
    HexSpells(s);
    var g := Hex(s);
    forall i | 0 <= i < |h| ensures h[i] == g[i] {
      var j: nat := i / 2;
      assert j < |s| && s[j] == s[j];
      assert h[2 * j] == g[2 * j] && h[2 * j + 1] == g[2 * j + 1];
      assert i == 2 * j || i == 2 * j + 1;
    }
  }

  function Sign(mac: Mac, data: string, secret: string): string {
    Hex(mac(data, secret))
  }

  // ---- Issue and validate ----

  const SECOND := 1_000_000_000

  /** Whole seconds of a clock reading. */
  function Unix(nanoseconds: int): int {
    nanoseconds / SECOND
  }

  /** A product of 64-bit integers keeps the low 64 bits. */
  function Wrapped64(n: int): int {
    (n - INT64_MIN) % 0x1_0000_0000_0000_0000 + INT64_MIN
  }

  function Expiry(ttlSeconds: int, now: int): int {
    Unix(now + Wrapped64(ttlSeconds * SECOND))
  }

  function IssueViewerToken(mac: Mac, sessionToken: string, ttlSeconds: int, secret: string, now: int): string {
    var expire := FormatInt(Expiry(ttlSeconds, now));
    var sig := Sign(mac, sessionToken + "." + expire, secret);
    sessionToken + "." + expire + "." + sig
  }

  /** The lifetime the issuing endpoint uses. */
  function EffectiveTtl(ttlSeconds: int): int {
    if ttlSeconds <= 0 || ttlSeconds > 86400 then 3600 else ttlSeconds
  }

  datatype TokenError = BadFormat | BadSignature | BadExpiry | Expired

  datatype Validation = Valid(sessionToken: string) | Invalid(error: TokenError)

  function ValidateViewerToken(mac: Mac, rawToken: string, secret: string, now: int): Validation {
    var parts := Split(rawToken);
    if |parts| != 3 then Invalid(BadFormat)
    else
      var sessionToken, expireStr, sig := parts[0], parts[1], parts[2];
      if Sign(mac, sessionToken + "." + expireStr, secret) != sig then Invalid(BadSignature)
      else match ScanInt(expireStr)
           case None => Invalid(BadExpiry)
           case Some(expireTs) => if now > expireTs then Invalid(Expired) else Valid(sessionToken)
  }

  // ---- Results ----

  lemma SplitToken(t: string, e: string, sig: string)
    requires DotFree(t) && DotFree(e) && DotFree(sig)
    ensures Split(t + "." + e + "." + sig) == [t, e, sig]
  {
    assert t + "." + e + "." + sig == t + "." + (e + "." + sig);
    SplitFirst(t, e + "." + sig);
    SplitFirst(e, sig);
    SplitWhole(sig);
  }

  lemma ValidUntilExpiry(mac: Mac, sessionToken: string, ttl: int, secret: string, issued: int, now: int)
    requires DotFree(sessionToken)
    ensures InInt64(Expiry(ttl, issued)) ==>
              ValidateViewerToken(mac, IssueViewerToken(mac, sessionToken, ttl, secret, issued), secret, now)
              == if now <= Expiry(ttl, issued) then Valid(sessionToken) else Invalid(Expired)
  {
    if InInt64(Expiry(ttl, issued)) {
      var expire := FormatInt(Expiry(ttl, issued));
      PrintScan(Expiry(ttl, issued));
      HexDotFree(mac(sessionToken + "." + expire, secret));
      SplitToken(sessionToken, expire, Sign(mac, sessionToken + "." + expire, secret));
    }
  }

  /** A clock reading: 64-bit nanoseconds since the epoch. */
  type Reading = n: int | INT64_MIN <= n <= INT64_MAX

  lemma ExpiryFits(ttl: int, issued: Reading)
    ensures InInt64(Expiry(ttl, issued))
  {
    var w := Wrapped64(ttl * SECOND);
    assert INT64_MIN <= w <= INT64_MAX && INT64_MIN <= issued <= INT64_MAX;
    UnixFits(issued + w);
  }

  lemma UnixFits(n: int)
    requires 2 * INT64_MIN <= n <= 2 * INT64_MAX
    ensures InInt64(Unix(n))
  {
  }

  /** A token issued for a dot-free session token validates to it up to and including its expiry second,
      and is expired from the next second on. */
  lemma IssuedThenValidated(mac: Mac, sessionToken: string, ttl: int, secret: string, issued: Reading, now: int)
    requires DotFree(sessionToken)
    ensures ValidateViewerToken(mac, IssueViewerToken(mac, sessionToken, ttl, secret, issued), secret, now)
            == if now <= Expiry(ttl, issued) then Valid(sessionToken) else Invalid(Expired)
  {
    ExpiryFits(ttl, issued);
    ValidUntilExpiry(mac, sessionToken, ttl, secret, issued, now);
  }

  /** One issued for a session token with a dot in it never validates, under any secret. */
  lemma DottedNeverValidates(mac: Mac, sessionToken: string, ttl: int, secret: string, issued: int,
                             other: string, now: int)
    requires !DotFree(sessionToken)
    ensures ValidateViewerToken(mac, IssueViewerToken(mac, sessionToken, ttl, secret, issued), other, now) ==
            Invalid(BadFormat)
  {
    var expire := FormatInt(Expiry(ttl, issued));
    var sig := Sign(mac, sessionToken + "." + expire, secret);
    var raw := sessionToken + "." + expire + "." + sig;
    NoDots(sessionToken);
    SplitCount(raw);
    assert raw == sessionToken + ("." + (expire + ("." + sig)));
    DotsConcat(sessionToken, "." + (expire + ("." + sig)));
    DotsConcat(".", expire + ("." + sig));
    DotsConcat(expire, "." + sig);
    DotsConcat(".", sig);
    assert Dots(".") == 1;
  }

  /** A token issued under one secret and read under another before its expiry is accepted exactly when the
      two secrets give the same hash of session token, dot and expiry. */
  lemma OtherSecret(mac: Mac, sessionToken: string, ttl: int, issuing: string, issued: Reading,
                    reading: string, now: int)
    requires DotFree(sessionToken) && now <= Expiry(ttl, issued)
    ensures var data := sessionToken + "." + FormatInt(Expiry(ttl, issued));
            var raw := IssueViewerToken(mac, sessionToken, ttl, issuing, issued);
            var answer := ValidateViewerToken(mac, raw, reading, now);
            && (answer == Valid(sessionToken) <==> mac(data, issuing) == mac(data, reading))
            && (answer != Valid(sessionToken) ==> answer == Invalid(BadSignature))
  {
    var expire := FormatInt(Expiry(ttl, issued));
    var data := sessionToken + "." + expire;
    ExpiryFits(ttl, issued);
    PrintScan(Expiry(ttl, issued));
    HexDotFree(mac(data, issuing));
    SplitToken(sessionToken, expire, Sign(mac, data, issuing));
    HexInjective(mac(data, issuing), mac(data, reading));
  }

  /** The token consists of t, e and the hexadecimal digits of the hash of "t.e" under the secret, and e
      scans to a second not yet over. */
  ghost predicate AcceptedWith(mac: Mac, raw: string, secret: string, now: int, t: string, e: string) {
    && DotFree(t) && DotFree(e)
    && (exists sig: string :: raw == t + "." + e + "." + sig && Spells(sig, mac(t + "." + e, secret)))
    && ScanInt(e).Some? && now <= ScanInt(e).value
  }

  lemma ThreeParts(raw: string)
    requires |Split(raw)| == 3
    ensures var parts := Split(raw);
            raw == parts[0] + "." + parts[1] + "." + parts[2] && DotFree(parts[0]) && DotFree(parts[1])
  {
    var parts := Split(raw);
    SplitJoin(raw);
    assert parts[1..][1..] == [parts[2]];
    assert Join(parts[1..]) == parts[1] + "." + parts[2];
    assert parts[0] in parts && parts[1] in parts;
    assert raw == parts[0] + "." + (parts[1] + "." + parts[2]);
  }

  lemma AcceptedParts(mac: Mac, raw: string, secret: string, now: int, t: string)
    requires ValidateViewerToken(mac, raw, secret, now) == Valid(t)
    ensures AcceptedWith(mac, raw, secret, now, t, Split(raw)[1])
  {
    var parts := Split(raw);
    ThreeParts(raw);
    HexSpells(mac(t + "." + parts[1], secret));
  }

  lemma PartsAccepted(mac: Mac, raw: string, secret: string, now: int, t: string, e: string)
    requires AcceptedWith(mac, raw, secret, now, t, e)
    ensures ValidateViewerToken(mac, raw, secret, now) == Valid(t)
  {
    var m := mac(t + "." + e, secret);
    var sig: string :| raw == t + "." + e + "." + sig && Spells(sig, m);
    SpelledOnce(sig, m);
    HexDotFree(m);
    SplitToken(t, e, sig);
  }

  /** A token is accepted exactly when it is a dot-free session token and a dot-free expiry that scans to a
      second not yet over, followed by the signature of just these two under the relay's secret. */
  lemma AcceptedExactly(mac: Mac, raw: string, secret: string, now: int, t: string)
    ensures ValidateViewerToken(mac, raw, secret, now) == Valid(t) <==>
            exists e: string :: AcceptedWith(mac, raw, secret, now, t, e)
  {
    if ValidateViewerToken(mac, raw, secret, now) == Valid(t) {
      AcceptedParts(mac, raw, secret, now, t);
    }
    forall e: string | AcceptedWith(mac, raw, secret, now, t, e)
      ensures ValidateViewerToken(mac, raw, secret, now) == Valid(t)
    {
      PartsAccepted(mac, raw, secret, now, t, e);
    }
  }

  /** The lifetime asked for is the lifetime granted exactly when it fits the 64-bit nanosecond count. */
  lemma TtlExact(ttl: int, now: int)
    ensures Expiry(ttl, now) == Unix(now) + ttl <==> InInt64(ttl * SECOND)
  {
    var x := ttl * SECOND;
    var d := Wrapped64(x) - x;
    assert exists k: int :: d == k * 0x1_0000_0000_0000_0000 by {
      var k := -((x - INT64_MIN) / 0x1_0000_0000_0000_0000);
      assert d == k * 0x1_0000_0000_0000_0000;
    }
    assert Unix(now + x) == Unix(now) + ttl;
    if d != 0 {
      assert d >= SECOND || d <= -SECOND;
    }
  }

  /** The issuing endpoint grants a lifetime between one second and one day as asked for, and an hour
      otherwise; the expiry is that many seconds after the second of issue. */
  lemma EndpointLifetime(ttl: int, now: int)
    ensures Expiry(EffectiveTtl(ttl), now) == now / 1_000_000_000 + if 1 <= ttl <= 86400 then ttl else 3600
  {
    TtlExact(EffectiveTtl(ttl), now);
  }
}
