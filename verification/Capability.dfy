/** Capabilities: signed texts that the ControlNode prints and the DataNode parses. The MAC
    is any function to 64 hexadecimal digits (HMAC, section 2 of RFC 2104, in the source). */
module Capability {
  import opened Common
  import opened Paths

  type Mac = string -> string

  predicate HexDigit(c: char) { '0' <= c <= '9' || 'a' <= c <= 'f' }

  predicate Hex(text: string) {
    forall i :: 0 <= i < |text| ==> HexDigit(text[i])
  }

  ghost predicate Signs(mac: Mac) {
    forall payload :: |mac(payload)| == 64 && Hex(mac(payload))
  }

  datatype Verdict = Granted | Missing | Invalid | NotAuthorized | Expired

  // ----- Decimal numbers -----

  function DigitOf(n: nat): char
    requires n < 10
  {
    '0' + (n as char)
  }

  function Decimal(n: nat): (r: string)
    ensures r != "" && AllDigits(r)
  {
    if n < 10 then [DigitOf(n)] else Decimal(n / 10) + [DigitOf(n % 10)]
  }

  /** Python's `str` of an integer. */
  function Signed(n: int): string {
    if n < 0 then "-" + Decimal(-n) else Decimal(n)
  }

  predicate AllDigits(text: string) {
    forall i :: 0 <= i < |text| ==> '0' <= text[i] <= '9'
  }

  function ValueOf(text: string): nat
    requires AllDigits(text)
  {
    if text == "" then 0 else 10 * ValueOf(text[..|text| - 1]) + (text[|text| - 1] - '0') as nat
  }

  lemma {:induction false} DecimalRoundTrip(n: nat)
    ensures ValueOf(Decimal(n)) == n
  {
    var text := Decimal(n);
    if n >= 10 {
      DecimalRoundTrip(n / 10);
      assert text[..|text| - 1] == Decimal(n / 10);
    } else {
      assert text[..|text| - 1] == "";
    }
  }

  function Ceil(x: real): int {
    -((0.0 - x).Floor)
  }

  // ----- Printing -----

  predicate BlockId(id: string) { |id| == 32 && Hex(id) }

  predicate BlockOp(op: string) { op == "read" || op == "write" || op == "delete" }

  predicate InternalOp(op: string) { op == "list" || op == "replicate" }

  function Sign(mac: Mac, payload: string): string {
    payload + "." + mac(payload)
  }

  function BlockPayload(op: string, id: string, expiry: string): string {
    "b:" + op + ":" + id + ":" + expiry
  }

  function InternalPayload(op: string, expiry: string): string {
    "i:" + op + ":" + expiry
  }

  /** `issue_block`; an unknown operation or a bad id is the issuer's own error. */
  function IssueBlock(mac: Mac, id: string, op: string, ttl: real, now: real): Option<string> {
    if !BlockOp(op) || !BlockId(id) then None else Some(Sign(mac, BlockPayload(op, id, Signed(Ceil(now + ttl)))))
  }

  function IssueInternal(mac: Mac, op: string, ttl: real, now: real): Option<string> {
    if !InternalOp(op) then None else Some(Sign(mac, InternalPayload(op, Signed(Ceil(now + ttl)))))
  }

  // ----- Parsing -----

  predicate Ascii(text: string) {
    forall i :: 0 <= i < |text| ==> text[i] < 128 as char
  }

  /** Python's `rpartition(".")`: around the last dot, if there is one. */
  function AroundLastDot(text: string): (string, bool, string) {
    if text == "" then ("", false, "")
    else
      var rest := AroundLastDot(text[1..]);
      if rest.1 then ([text[0]] + rest.0, true, rest.2)
      else if text[0] == '.' then ("", true, text[1..])
      else ("", false, text)
  }

  /** `_verified_fields`: nothing unsigned is looked into. */
  function VerifiedFields(mac: Mac, token: string): (Verdict, seq<string>) {
    if token == "" then (Missing, [])
    else
      var (payload, dot, signature) := AroundLastDot(token);
      if !dot || !Ascii(payload) || !Ascii(signature) || signature != mac(payload) then (Invalid, [])
      else (Granted, Split(payload, ':'))
  }

  function CheckExpiry(expiry: string, now: real): Verdict {
    if expiry == "" || !AllDigits(expiry) then NotAuthorized
    else if ValueOf(expiry) as real <= now then Expired
    else Granted
  }

  function VerifyBlock(mac: Mac, token: string, id: string, op: string, now: real): Verdict {
    var (verdict, fields) := VerifiedFields(mac, token);
    if verdict != Granted then verdict
    else if |fields| != 4 || fields[0] != "b" || fields[1] != op || fields[2] != id then NotAuthorized
    else CheckExpiry(fields[3], now)
  }

  function VerifyInternal(mac: Mac, token: string, op: string, now: real): Verdict {
    var (verdict, fields) := VerifiedFields(mac, token);
    if verdict != Granted then verdict
    else if |fields| != 3 || fields[0] != "i" || fields[1] != op then NotAuthorized
    else CheckExpiry(fields[2], now)
  }

  // ----- The parser inverts the printer -----

  lemma {:induction false} LastDot(payload: string, signature: string)
    requires '.' !in signature
    ensures AroundLastDot(payload + "." + signature) == (payload, true, signature)
  {
    var text := payload + "." + signature;
    if payload == "" {
      assert text[1..] == signature;
      NoDot(signature);
    } else {
      assert text[1..] == payload[1..] + "." + signature;
      LastDot(payload[1..], signature);
      assert payload == [payload[0]] + payload[1..];
    }
  }

  lemma {:induction false} NoDot(text: string)
    requires '.' !in text
    ensures AroundLastDot(text) == ("", false, text)
  {
    if text != "" {
      NoDot(text[1..]);
    }
  }

  lemma {:induction false} DotSplitsTheText(text: string)
    requires AroundLastDot(text).1
    ensures text == AroundLastDot(text).0 + "." + AroundLastDot(text).2
  {
    if AroundLastDot(text[1..]).1 {
      DotSplitsTheText(text[1..]);
      assert text == [text[0]] + text[1..];
    } else {
      assert text == [text[0]] + text[1..];
    }
  }

  lemma {:induction false} HexHasNoMarks(text: string)
    requires Hex(text)
    ensures '.' !in text && ':' !in text && Ascii(text)
  {
    forall i | 0 <= i < |text| ensures text[i] != '.' && text[i] != ':' && text[i] < 128 as char {
      assert HexDigit(text[i]);
    }
  }

  lemma {:induction false} NumbersHaveNoMarks(n: int)
    ensures '.' !in Signed(n) && ':' !in Signed(n) && Ascii(Signed(n))
    ensures Signed(n) != "" && (AllDigits(Signed(n)) <==> n >= 0)
    ensures n >= 0 ==> ValueOf(Signed(n)) == n
  {
    if n >= 0 {
      DecimalRoundTrip(n);
    } else {
      assert Signed(n)[0] == '-';
    }
    assert AllDigits(Decimal(if n < 0 then -n else n));
  }

  lemma {:induction false} SignedIsInjective(m: int, n: int)
    requires Signed(m) == Signed(n)
    ensures m == n
  {
    NumbersHaveNoMarks(m);
    NumbersHaveNoMarks(n);
    if m < 0 {
      NegativeText(m);
      NegativeText(n);
    }
  }

  lemma {:induction false} NegativeText(n: int)
    requires n < 0
    ensures |Signed(n)| > 0 && AllDigits(Signed(n)[1..]) && ValueOf(Signed(n)[1..]) == -n
  {
    MinusTail(Decimal(-n));
    DecimalRoundTrip(-n);
  }

  lemma {:induction false} MinusTail(digits: string)
    ensures ("-" + digits)[1..] == digits
  {
  }

  lemma {:induction false} SignedTextVerifies(mac: Mac, payload: string)
    requires Signs(mac) && Ascii(payload)
    ensures VerifiedFields(mac, Sign(mac, payload)) == (Granted, Split(payload, ':'))
  {
    assert |mac(payload)| == 64 && Hex(mac(payload));
    HexHasNoMarks(mac(payload));
    LastDot(payload, mac(payload));
  }

  lemma {:induction false} BlockFields(op: string, id: string, expiry: string)
    requires ':' !in op && ':' !in id && ':' !in expiry
    ensures Split(BlockPayload(op, id, expiry), ':') == ["b", op, id, expiry]
  {
    JoinedFields(op, id, expiry);
    SplitJoin(["b", op, id, expiry], ':');
  }

  lemma {:induction false} JoinedFields(op: string, id: string, expiry: string)
    ensures Join(["b", op, id, expiry], ':') == BlockPayload(op, id, expiry)
  {
    var fields := ["b", op, id, expiry];
    assert fields[1..] == [op, id, expiry] && fields[1..][1..] == [id, expiry] && [id, expiry][1..] == [expiry];
    assert Join([expiry], ':') == expiry;
    assert Join([id, expiry], ':') == id + ":" + expiry;
    assert Join([op, id, expiry], ':') == op + ":" + (id + ":" + expiry);
    assert Join(fields, ':') == "b" + ":" + (op + ":" + (id + ":" + expiry));
  }

  lemma {:induction false} InternalFields(op: string, expiry: string)
    requires ':' !in op && ':' !in expiry
    ensures Split(InternalPayload(op, expiry), ':') == ["i", op, expiry]
  {
    JoinedInternalFields(op, expiry);
    SplitJoin(["i", op, expiry], ':');
  }

  lemma {:induction false} JoinedInternalFields(op: string, expiry: string)
    ensures Join(["i", op, expiry], ':') == InternalPayload(op, expiry)
  {
    var fields := ["i", op, expiry];
    assert fields[1..] == [op, expiry] && [op, expiry][1..] == [expiry];
    assert Join([expiry], ':') == expiry;
    assert Join([op, expiry], ':') == op + ":" + expiry;
    assert Join(fields, ':') == "i" + ":" + (op + ":" + expiry);
  }

  lemma {:induction false} OpsHaveNoMarks(op: string)
    requires BlockOp(op) || InternalOp(op)
    ensures ':' !in op && Ascii(op)
  {
  }

  /** An issued block capability is accepted exactly for its block and operation, and while
      the clock is before its expiry, which must not be negative. */
  lemma {:induction false} IssuedBlockIsAcceptedIff(mac: Mac, id: string, op: string, ttl: real, issued: real,
        id': string, op': string, now: real)
    requires Signs(mac) && BlockOp(op) && BlockId(id)
    ensures var token, expiry := IssueBlock(mac, id, op, ttl, issued).value, Ceil(issued + ttl);
            VerifyBlock(mac, token, id', op', now) ==
              if id' != id || op' != op || expiry < 0 then NotAuthorized
              else if now < expiry as real then Granted else Expired
  {
    var expiry := Ceil(issued + ttl);
    OpsHaveNoMarks(op);
    HexHasNoMarks(id);
    NumbersHaveNoMarks(expiry);
    SignedTextVerifies(mac, BlockPayload(op, id, Signed(expiry)));
    BlockFields(op, id, Signed(expiry));
  }

  lemma {:induction false} IssuedInternalIsAcceptedIff(mac: Mac, op: string, ttl: real, issued: real, op': string,
        now: real)
    requires Signs(mac) && InternalOp(op)
    ensures var token, expiry := IssueInternal(mac, op, ttl, issued).value, Ceil(issued + ttl);
            VerifyInternal(mac, token, op', now) ==
              if op' != op || expiry < 0 then NotAuthorized
              else if now < expiry as real then Granted else Expired
  {
    var expiry := Ceil(issued + ttl);
    OpsHaveNoMarks(op);
    NumbersHaveNoMarks(expiry);
    SignedTextVerifies(mac, InternalPayload(op, Signed(expiry)));
    InternalFields(op, Signed(expiry));
  }

  /** It lives at least `ttl`, and less than `ttl + 1`. */
  lemma {:induction false} Lifetime(mac: Mac, id: string, op: string, ttl: real, issued: real, now: real)
    requires Signs(mac) && BlockOp(op) && BlockId(id) && 0.0 <= issued && 0.0 <= ttl
    ensures var token := IssueBlock(mac, id, op, ttl, issued).value;
            && (now < issued + ttl ==> VerifyBlock(mac, token, id, op, now) == Granted)
            && (now >= issued + ttl + 1.0 ==> VerifyBlock(mac, token, id, op, now) == Expired)
  {
    IssuedBlockIsAcceptedIff(mac, id, op, ttl, issued, id, op, now);
  }

  /** Neither kind is accepted for the other. */
  lemma {:induction false} KindsDoNotMix(mac: Mac, id: string, op: string, internal: string, ttl: real, issued: real,
        id': string, op': string, now: real)
    requires Signs(mac) && BlockOp(op) && BlockId(id) && InternalOp(internal)
    ensures VerifyInternal(mac, IssueBlock(mac, id, op, ttl, issued).value, op', now) == NotAuthorized
    ensures VerifyBlock(mac, IssueInternal(mac, internal, ttl, issued).value, id', op', now) == NotAuthorized
  {
    var expiry := Ceil(issued + ttl);
    OpsHaveNoMarks(op);
    OpsHaveNoMarks(internal);
    HexHasNoMarks(id);
    NumbersHaveNoMarks(expiry);
    SignedTextVerifies(mac, BlockPayload(op, id, Signed(expiry)));
    BlockFields(op, id, Signed(expiry));
    SignedTextVerifies(mac, InternalPayload(internal, Signed(expiry)));
    InternalFields(internal, Signed(expiry));
  }

  /** Different grants have different payloads, so no signature serves two of them. */
  lemma {:induction false} PayloadsAreInjective(op: string, id: string, expiry: int, op': string, id': string,
        expiry': int)
    requires BlockOp(op) && BlockId(id) && BlockOp(op') && BlockId(id')
    requires BlockPayload(op, id, Signed(expiry)) == BlockPayload(op', id', Signed(expiry'))
    ensures op == op' && id == id' && expiry == expiry'
  {
    OpsHaveNoMarks(op);
    OpsHaveNoMarks(op');
    HexHasNoMarks(id);
    HexHasNoMarks(id');
    NumbersHaveNoMarks(expiry);
    NumbersHaveNoMarks(expiry');
    BlockFields(op, id, Signed(expiry));
    BlockFields(op', id', Signed(expiry'));
    assert ["b", op, id, Signed(expiry)] == ["b", op', id', Signed(expiry')];
    assert ["b", op, id, Signed(expiry)][3] == ["b", op', id', Signed(expiry')][3];
    SignedIsInjective(expiry, expiry');
    assert ["b", op, id, Signed(expiry)][1] == ["b", op', id', Signed(expiry')][1];
    assert ["b", op, id, Signed(expiry)][2] == ["b", op', id', Signed(expiry')][2];
  }

  lemma {:induction false} InternalPayloadsAreInjective(op: string, expiry: int, op': string, expiry': int)
    requires InternalOp(op) && InternalOp(op')
    requires InternalPayload(op, Signed(expiry)) == InternalPayload(op', Signed(expiry'))
    ensures op == op' && expiry == expiry'
  {
    OpsHaveNoMarks(op);
    OpsHaveNoMarks(op');
    NumbersHaveNoMarks(expiry);
    NumbersHaveNoMarks(expiry');
    InternalFields(op, Signed(expiry));
    InternalFields(op', Signed(expiry'));
    assert ["i", op, Signed(expiry)] == ["i", op', Signed(expiry')];
    assert ["i", op, Signed(expiry)][1] == ["i", op', Signed(expiry')][1];
    assert ["i", op, Signed(expiry)][2] == ["i", op', Signed(expiry')][2];
    SignedIsInjective(expiry, expiry');
  }

  /** No payload is both a block's and an internal one. */
  lemma {:induction false} PayloadKindsDiffer(op: string, id: string, expiry: string, op': string, expiry': string)
    ensures BlockPayload(op, id, expiry) != InternalPayload(op', expiry')
  {
    assert BlockPayload(op, id, expiry)[0] == 'b' && InternalPayload(op', expiry')[0] == 'i';
  }

  /** What is accepted is a payload for exactly this grant, printed and signed. */
  lemma {:induction false} AcceptedIsSigned(mac: Mac, token: string, id: string, op: string, now: real)
    returns (expiry: string)
    requires VerifyBlock(mac, token, id, op, now) == Granted
    ensures token == Sign(mac, BlockPayload(op, id, expiry))
    ensures expiry != "" && AllDigits(expiry) && ValueOf(expiry) as real > now
  {
    var (payload, dot, signature) := AroundLastDot(token);
    DotSplitsTheText(token);
    JoinSplit(payload, ':');
    var fields := Split(payload, ':');
    expiry := fields[3];
    assert fields == ["b", op, id, expiry];
    JoinedFields(op, id, expiry);
  }

  lemma {:induction false} AcceptedInternalIsSigned(mac: Mac, token: string, op: string, now: real)
    returns (expiry: string)
    requires VerifyInternal(mac, token, op, now) == Granted
    ensures token == Sign(mac, InternalPayload(op, expiry))
    ensures expiry != "" && AllDigits(expiry) && ValueOf(expiry) as real > now
  {
    var (payload, dot, signature) := AroundLastDot(token);
    DotSplitsTheText(token);
    JoinSplit(payload, ':');
    var fields := Split(payload, ':');
    expiry := fields[2];
    assert fields == ["i", op, expiry];
    JoinedInternalFields(op, expiry);
  }

  // ----- Every verdict -----

  /** Decimal notation: the last digit counts ones, and those before it ten times as much. */
  lemma {:induction false} DecimalsExactly(n: int, digits: string, last: char)
    requires AllDigits(digits) && '0' <= last <= '9'
    ensures ValueOf("") == 0 && ValueOf(digits + [last]) == 10 * ValueOf(digits) + (last as int - 48)
    ensures n >= 0 ==> AllDigits(Signed(n)) && ValueOf(Signed(n)) == n && (n > 0 ==> Signed(n)[0] != '0')
    ensures n < 0 ==> Signed(n) == "-" + Signed(-n)
    ensures Signed(0) == "0"
  {
    var text := digits + [last];
    assert text[..|text| - 1] == digits && text[|text| - 1] == last;
    NumbersHaveNoMarks(n);
    if n > 0 {
      NoLeadingZero(n);
    }
  }

  lemma {:induction false} NoLeadingZero(n: nat)
    requires n > 0
    ensures Decimal(n)[0] != '0'
  {
    if n >= 10 {
      NoLeadingZero(n / 10);
    }
  }

  /** `ceil`: the least integer that is not below `x`. */
  lemma {:induction false} CeilExactly(x: real)
    ensures x <= Ceil(x) as real < x + 1.0
  {
  }

  /** What is signed for a block, and how. */
  ghost predicate IsBlockToken(mac: Mac, token: string, op: string, id: string, expiry: string) {
    var payload := "b:" + op + ":" + id + ":" + expiry;
    token == payload + "." + mac(payload) && Ascii(payload)
  }

  ghost predicate IsInternalToken(mac: Mac, token: string, op: string, expiry: string) {
    var payload := "i:" + op + ":" + expiry;
    token == payload + "." + mac(payload) && Ascii(payload)
  }

  /** Only these operations, and only ids of 32 lower-case hexadecimal digits, are issued. */
  lemma {:induction false} IssuedExactly(mac: Mac, id: string, op: string, ttl: real, now: real)
    ensures IssueBlock(mac, id, op, ttl, now).Some? <==>
            op in ["read", "write", "delete"] && |id| == 32 && forall c :: c in id ==> c in "0123456789abcdef"
    ensures IssueInternal(mac, op, ttl, now).Some? <==> op in ["list", "replicate"]
    ensures var token := IssueBlock(mac, id, op, ttl, now);
            token.Some? ==> IsBlockToken(mac, token.value, op, id, Signed(Ceil(now + ttl)))
    ensures var token := IssueInternal(mac, op, ttl, now);
            token.Some? ==> IsInternalToken(mac, token.value, op, Signed(Ceil(now + ttl)))
  {
    if |id| == 32 {
      HexExactly(id);
    }
    NumbersHaveNoMarks(Ceil(now + ttl));
    if BlockOp(op) && BlockId(id) {
      HexHasNoMarks(id);
    }
  }

  lemma {:induction false} HexExactly(text: string)
    ensures Hex(text) <==> forall c :: c in text ==> c in "0123456789abcdef"
  {
    if Hex(text) {
      forall c | c in text ensures c in "0123456789abcdef" {
        HexDigitExactly(c);
      }
    }
    if forall c :: c in text ==> c in "0123456789abcdef" {
      forall i | 0 <= i < |text| ensures HexDigit(text[i]) {
        HexDigitExactly(text[i]);
      }
    }
  }

  lemma {:induction false} HexDigitExactly(c: char)
    ensures HexDigit(c) <==> c in "0123456789abcdef"
  {
    if HexDigit(c) {
      var i := if c <= '9' then (c - '0') as int else (c - 'a') as int + 10;
      assert "0123456789abcdef"[i] == c;
    }
  }

  /** A token that carries its own signature. */
  ghost predicate Carries(mac: Mac, token: string, payload: string) {
    Ascii(payload) && token == payload + "." + mac(payload)
  }

  lemma {:induction false} VerifiedIff(mac: Mac, token: string)
    requires Signs(mac)
    ensures var (verdict, fields) := VerifiedFields(mac, token);
            && (verdict == Missing <==> token == "")
            && (verdict == Granted <==> exists payload :: Carries(mac, token, payload))
            && (verdict == Missing || verdict == Invalid || verdict == Granted)
    ensures forall payload :: Carries(mac, token, payload) ==>
              VerifiedFields(mac, token) == (Granted, Split(payload, ':'))
  {
    forall payload | Carries(mac, token, payload)
      ensures VerifiedFields(mac, token) == (Granted, Split(payload, ':'))
    {
      SignedTextVerifies(mac, payload);
    }
    if VerifiedFields(mac, token).0 == Granted {
      DotSplitsTheText(token);
      assert Carries(mac, token, AroundLastDot(token).0);
    }
  }

  /** The verdict on any text shown for any block. */
  lemma {:induction false} VerifyBlockExactly(mac: Mac, token: string, id: string, op: string, now: real)
    requires Signs(mac)
    ensures var verdict := VerifyBlock(mac, token, id, op, now);
            && (verdict == Missing <==> token == "")
            && (verdict == Invalid <==> token != "" && forall payload :: !Carries(mac, token, payload))
            && (verdict == Granted <==> exists expiry :: GrantsBlock(mac, token, id, op, expiry)
                                                         && now < ValueOf(expiry) as real)
            && (verdict == Expired <==> exists expiry :: GrantsBlock(mac, token, id, op, expiry)
                                                         && now >= ValueOf(expiry) as real)
  {
    VerifiedIff(mac, token);
    forall expiry | GrantsBlock(mac, token, id, op, expiry)
      ensures VerifyBlock(mac, token, id, op, now) == if now < ValueOf(expiry) as real then Granted else Expired
    {
      assert Carries(mac, token, BlockPayload(op, id, expiry));
      BlockFields(op, id, expiry);
    }
    var fields := VerifiedFields(mac, token).1;
    if VerifyBlock(mac, token, id, op, now) in [Granted, Expired] {
      var payload :| Carries(mac, token, payload);
      JoinSplit(payload, ':');
      assert fields == ["b", op, id, fields[3]];
      JoinedFields(op, id, fields[3]);
      assert GrantsBlock(mac, token, id, op, fields[3]);
    }
  }

  /** A signed text for this block, operation and some expiry in digits; a name with a colon
      in it is never granted anything. */
  ghost predicate GrantsBlock(mac: Mac, token: string, id: string, op: string, expiry: string) {
    ':' !in op && ':' !in id && expiry != "" && AllDigits(expiry) && IsBlockToken(mac, token, op, id, expiry)
  }

  ghost predicate GrantsInternal(mac: Mac, token: string, op: string, expiry: string) {
    ':' !in op && expiry != "" && AllDigits(expiry) && IsInternalToken(mac, token, op, expiry)
  }

  lemma {:induction false} VerifyInternalExactly(mac: Mac, token: string, op: string, now: real)
    requires Signs(mac)
    ensures var verdict := VerifyInternal(mac, token, op, now);
            && (verdict == Missing <==> token == "")
            && (verdict == Invalid <==> token != "" && forall payload :: !Carries(mac, token, payload))
            && (verdict == Granted <==> exists expiry :: GrantsInternal(mac, token, op, expiry)
                                                         && now < ValueOf(expiry) as real)
            && (verdict == Expired <==> exists expiry :: GrantsInternal(mac, token, op, expiry)
                                                         && now >= ValueOf(expiry) as real)
  {
    VerifiedIff(mac, token);
    forall expiry | GrantsInternal(mac, token, op, expiry)
      ensures VerifyInternal(mac, token, op, now) == if now < ValueOf(expiry) as real then Granted else Expired
    {
      assert Carries(mac, token, InternalPayload(op, expiry));
      InternalFields(op, expiry);
    }
    var fields := VerifiedFields(mac, token).1;
    if VerifyInternal(mac, token, op, now) in [Granted, Expired] {
      var payload :| Carries(mac, token, payload);
      JoinSplit(payload, ':');
      assert fields == ["i", op, fields[2]];
      JoinedInternalFields(op, fields[2]);
      assert GrantsInternal(mac, token, op, fields[2]);
    }
  }
}
