/** Signed action links: token format, lifetime, and what a token is good for.
    The clock and HMAC (section 2 of RFC 2104) are parameters. */
module ChatOpsToken {
  import opened Options
  import opened Predicates

  const TOKEN_TTL := 86400  // 24 h

  /** Hex-encoded HMAC-SHA256 of a message under a key. */
  type Hmac = (string, string) -> string

  const ACTIONS := {"confirm", "approve", "discard"}

  // ---- %d --------------------------------------------------------------------------

  function Digit(n: nat): char
    requires n < 10
  {
    ('0' as int + n) as char
  }

  function Digits(n: nat): (s: string)
    ensures s != "" && forall c | c in s :: IsDigit(c)
  {
    if n < 10 then [Digit(n)] else Digits(n / 10) + [Digit(n % 10)]
  }

  function Render(n: int): string {
    if n < 0 then "-" + Digits(-n) else Digits(n)
  }

  lemma {:induction false} DigitsValueOfDigits(n: nat)
    ensures DigitsValue(Digits(n)) == n
  {
    if n >= 10 {
      DigitsValueOfDigits(n / 10);
      var s := Digits(n);
      assert s[..|s| - 1] == Digits(n / 10);
    } else {
      assert Digits(n)[..0] == "";
    }
  }

  lemma {:induction false} ParseOfRender(n: int)
    requires MIN_INT64 <= n <= MAX_INT64
    ensures Atoi(Render(n)) == Some(n)
  {
    if n < 0 {
      DigitsValueOfDigits(-n);
      assert Render(n)[1..] == Digits(-n);
    } else {
      DigitsValueOfDigits(n);
      assert IsDigit(Render(n)[0]);
    }
  }

  predicate Free(s: string, x: char) {
    forall i | 0 <= i < |s| :: s[i] != x
  }

  lemma {:induction false} RenderIsPlain(n: int)
    ensures Free(Render(n), ':') && Free(Render(n), '.')
  {
    var digits := Digits(if n < 0 then -n else n);
    assert forall i | 0 <= i < |digits| :: digits[i] in digits && IsDigit(digits[i]);
  }

  // ---- tokens ------------------------------------------------------------------------

  function Message(run: string, action: string, expiry: int): string {
    run + ":" + action + ":" + Render(expiry)
  }

  function Sign(run: string, action: string, expiry: int, key: string, hmac: Hmac): string {
    hmac(key, Message(run, action, expiry))
  }

  function GenerateToken(run: string, action: string, key: string, now: int, hmac: Hmac): string {
    var expiry := now + TOKEN_TTL;
    Render(expiry) + "." + Sign(run, action, expiry, key, hmac)
  }

  /** `strings.SplitN(token, ".", 2)`, None when there is no dot. */
  function SplitAtDot(token: string): Option<(string, string)> {
    if token == "" then None
    else if token[0] == '.' then Some(("", token[1..]))
    else
      match SplitAtDot(token[1..])
      case None => None
      case Some((l, r)) => Some(([token[0]] + l, r))
  }

  predicate ValidateToken(token: string, run: string, action: string, key: string, now: int, hmac: Hmac) {
    match SplitAtDot(token)
    case None => false
    case Some((left, mac)) =>
      match Atoi(left)
      case None => false
      case Some(expiry) => now <= expiry && mac == Sign(run, action, expiry, key, hmac)
  }

  lemma {:induction false} SplitJoined(l: string, r: string)
    requires Free(l, '.')
    ensures SplitAtDot(l + "." + r) == Some((l, r))
  {
    var t := l + "." + r;
    if l == "" {
      assert t[1..] == r;
    } else {
      assert t[1..] == l[1..] + "." + r;
      SplitJoined(l[1..], r);
      assert [l[0]] + l[1..] == l;
    }
  }

  /** A generated token is good for its run and action exactly until 24 hours later. */
  lemma {:induction false} TokenLifetime(run: string, action: string, key: string, issued: int, now: int, hmac: Hmac)
    requires MIN_INT64 <= issued + TOKEN_TTL <= MAX_INT64
    ensures ValidateToken(GenerateToken(run, action, key, issued, hmac), run, action, key, now, hmac)
            <==> now <= issued + 86400
  {
    var expiry := issued + TOKEN_TTL;
    RenderIsPlain(expiry);
    SplitJoined(Render(expiry), Sign(run, action, expiry, key, hmac));
    ParseOfRender(expiry);
  }

  // ---- unique decoding ------------------------------------------------------------------

  /** Splitting at the last colon is unambiguous. */
  lemma {:induction false} LastColonSplit(p: string, x: string, q: string, y: string)
    requires Free(x, ':') && Free(y, ':') && p + ":" + x == q + ":" + y
    ensures p == q && x == y
  {
    var m, n := p + ":" + x, q + ":" + y;
    assert m[|p|] == ':' && n[|q|] == ':';
    assert |p| == |q|;
    assert p == m[..|p|] && q == n[..|q|];
    assert x == m[|p| + 1..] && y == n[|q| + 1..];
  }

  /** The signed message decodes uniquely for colon-free actions, whatever the run id. */
  lemma {:induction false} MessageDecodes(r1: string, a1: string, e1: int, r2: string, a2: string, e2: int)
    requires Free(a1, ':') && Free(a2, ':') && Message(r1, a1, e1) == Message(r2, a2, e2)
    ensures r1 == r2 && a1 == a2 && Render(e1) == Render(e2)
  {
    RenderIsPlain(e1);
    RenderIsPlain(e2);
    LastColonSplit(r1 + ":" + a1, Render(e1), r2 + ":" + a2, Render(e2));
    LastColonSplit(r1, a1, r2, a2);
  }

  ghost predicate Injective(hmac: Hmac, key: string) {
    forall m: string, n: string :: hmac(key, m) == hmac(key, n) ==> m == n
  }

  /** With an injective HMAC no token, generated or forged, is good for two different
      runs or two different actions, at whatever times. */
  lemma {:induction false} TokenBindsRunAndAction(token: string, r1: string, a1: string, t1: int,
                                                  r2: string, a2: string, t2: int, key: string, hmac: Hmac)
    requires Injective(hmac, key) && a1 in ACTIONS && a2 in ACTIONS
    requires ValidateToken(token, r1, a1, key, t1, hmac) && ValidateToken(token, r2, a2, key, t2, hmac)
    ensures r1 == r2 && a1 == a2
  {
    var expiry := Atoi(SplitAtDot(token).value.0).value;
    MessageDecodes(r1, a1, expiry, r2, a2, expiry);
  }

  /** Different keys or messages have different MACs. */
  ghost predicate Collisionless(hmac: Hmac) {
    forall k: string, m: string, l: string, n: string :: hmac(k, m) == hmac(l, n) ==> k == l && m == n
  }

  /** An issued MAC, under whatever expiry it is presented, opens only the link it was issued for,
      under its own key and within 24 hours. */
  lemma {:induction false} IssuedMacIsBound(expiry: string, r0: string, a0: string, key0: string, issued: int,
                                            run: string, action: string, key: string, now: int, hmac: Hmac)
    requires Collisionless(hmac) && a0 in ACTIONS && action in ACTIONS
    requires MIN_INT64 <= issued + TOKEN_TTL <= MAX_INT64 && Free(expiry, '.')
    requires SplitAtDot(GenerateToken(r0, a0, key0, issued, hmac)).Some?
    requires
      ValidateToken(expiry + "." + SplitAtDot(GenerateToken(r0, a0, key0, issued, hmac)).value.1, run, action, key, now, hmac)
    ensures run == r0 && action == a0 && key == key0 && now <= issued + 86400
  {
    var e0 := issued + TOKEN_TTL;
    RenderIsPlain(e0);
    SplitJoined(Render(e0), Sign(r0, a0, e0, key0, hmac));
    SplitJoined(expiry, Sign(r0, a0, e0, key0, hmac));
    var e := Atoi(expiry).value;
    MessageDecodes(r0, a0, e0, run, action, e);
    ParseOfRender(e0);
    ParseOfRender(e);
  }

  /** Colon-freeness is needed: with a colon in the action two different links share one message. */
  lemma {:induction false} ColonInActionIsAmbiguous(expiry: int)
    ensures Message("a", "b:c", expiry) == Message("a:b", "c", expiry)
  {
    assert "a" + ":" + "b:c" == "a:b" + ":" + "c";
  }
}
