/**
 * Signed email links (packages/delivery/src/email/tokens.ts). The keyed hash
 * is a parameter: a function from secret and text to bytes.
 */
module Tokens {
  import opened Wrappers
  import opened Decimal
  import opened Base64Url

  const TOKEN_TTL_SECONDS := 30 * 24 * 60 * 60

  type Mac = (string, string) -> seq<Byte>

  datatype TokenError = InvalidToken | TokenExpired

  datatype ActionPayload = ActionPayload(id: string, action: string, exp: int)

  function Split(s: string, separator: char): (parts: seq<string>)
    ensures parts != []
  {
    if s == "" then [""]
    else
      var rest := Split(s[1..], separator);
      if s[0] == separator then [""] + rest else [[s[0]] + rest[0]] + rest[1..]
  }

  /** `parseInt(s, 10)`: white space, a sign, digits; nothing when there is no digit. */
  function ParseInt(s: string): Option<int> {
    if s != "" && s[0] in " \t\n\r" then ParseInt(s[1..])
    else if s != "" && s[0] == '-' then
      var n := ParseDigits(s[1..]);
      if n == None then None else Some(-n.value)
    else if s != "" && s[0] == '+' then ParseDigits(s[1..])
    else ParseDigits(s)
  }

  function ParseDigits(s: string): Option<int> {
    if DigitRun(s) == 0 then None else Some(Value(s[..DigitRun(s)]))
  }

  /** The hash, itself base64url text, is encoded once more. */
  function Sign(mac: Mac, secret: string, text: string): string {
    Encode(Utf8(Encode(mac(secret, text))))
  }

  function Token(mac: Mac, secret: string, payload: string): string {
    var encoded := Encode(Utf8(payload));
    encoded + "." + Sign(mac, secret, encoded)
  }

  function PayloadText(id: string, action: string, exp: nat): string {
    id + "|" + action + "|" + Print(exp)
  }

  /** `now` is in whole seconds. */
  function CreateActionToken(mac: Mac, secret: string, id: string, action: string, now: nat): string {
    Token(mac, secret, PayloadText(id, action, now + TOKEN_TTL_SECONDS))
  }

  function CreateUnsubscribeToken(mac: Mac, secret: string, profileId: string, now: nat): string {
    CreateActionToken(mac, secret, profileId, "unsubscribe", now)
  }

  /** The signed text of a token whose signature is right. */
  function Verified(mac: Mac, secret: string, token: string): Option<string> {
    var parts := Split(token, '.');
    if |parts| != 2 || parts[1] != Sign(mac, secret, parts[0]) then None
    else Some(FromUtf8(Decode(parts[0])))
  }

  function ParseActionToken(mac: Mac, secret: string, token: string, now: nat): Result<ActionPayload, TokenError> {
    var payload := Verified(mac, secret, token);
    if payload == None then Err(InvalidToken)
    else
      var fields := Split(payload.value, '|');
      if |fields| < 3 || fields[0] == "" || fields[1] == "" || fields[2] == "" then Err(InvalidToken)
      else
        var exp := ParseInt(fields[2]);
        if exp == None then Err(InvalidToken)
        else if exp.value < now then Err(TokenExpired)
        else Ok(ActionPayload(fields[0], fields[1], exp.value))
  }

  function ParseUnsubscribeToken(mac: Mac, secret: string, token: string, now: nat): Result<(string, int), TokenError> {
    var payload := Verified(mac, secret, token);
    if payload == None then Err(InvalidToken)
    else
      var fields := Split(payload.value, '|');
      if |fields| < 3 || fields[0] == "" || fields[1] != "unsubscribe" || fields[2] == "" then Err(InvalidToken)
      else
        var exp := ParseInt(fields[2]);
        if exp == None then Err(InvalidToken)
        else if exp.value < now then Err(TokenExpired)
        else Ok((fields[0], exp.value))
  }

  // ---- Splitting

  lemma {:induction false} SplitWhole(s: string, separator: char)
    requires separator !in s
    ensures Split(s, separator) == [s]
  {
    if s != "" {
      SplitWhole(s[1..], separator);
      assert [s[0]] + s[1..] == s;
    }
  }

  lemma {:induction false} SplitAt(a: string, b: string, separator: char)
    requires separator !in a
    ensures Split(a + [separator] + b, separator) == [a] + Split(b, separator)
  {
    var s := a + [separator] + b;
    if a == "" {
      assert s[1..] == b;
    } else {
      assert s[1..] == a[1..] + [separator] + b;
      SplitAt(a[1..], b, separator);
      assert [s[0]] + a[1..] == a;
    }
  }

  /** The first part has no separator in it, and is shorter than the text if the text has one. */
  lemma {:induction false} SplitFirst(s: string, separator: char)
    ensures separator !in Split(s, separator)[0]
    ensures separator in s ==> |Split(s, separator)[0]| < |s|
  {
    if s != "" {
      SplitFirst(s[1..], separator);
    }
  }

  /** What the first part is does not depend on what follows a separator. */
  lemma {:induction false} SplitFirstOf(a: string, b: string, separator: char)
    requires separator in a
    ensures Split(a + b, separator)[0] == Split(a, separator)[0]
  {
    assert (a + b)[1..] == a[1..] + b;
    if a[0] != separator {
      SplitFirstOf(a[1..], b, separator);
    }
  }

  // ---- Round trips

  /** A token carries its payload: what was signed is what is read. */
  lemma VerifiedToken(mac: Mac, secret: string, payload: string)
    ensures Verified(mac, secret, Token(mac, secret, payload)) == Some(payload)
  {
    hide Encode, Decode, Utf8, FromUtf8;
    var encoded := Encode(Utf8(payload));
    var signature := Sign(mac, secret, encoded);
    EncodeHasNoPoint(Utf8(payload));
    EncodeHasNoPoint(Utf8(Encode(mac(secret, encoded))));
    assert encoded + "." + signature == encoded + ['.'] + signature;
    SplitAt(encoded, signature, '.');
    SplitWhole(signature, '.');
    DecodeOfEncode(Utf8(payload));
    FromUtf8OfUtf8(payload);
  }

  lemma {:induction false} SplitOne(s: string, separator: char)
    requires |Split(s, separator)| == 1
    ensures s == Split(s, separator)[0] && separator !in s
  {
    if s != "" {
      SplitOne(s[1..], separator);
      assert [s[0]] + s[1..] == s;
    }
  }

  /** A text that splits in two is its parts with the separator between them. */
  lemma {:induction false} SplitTwo(s: string, separator: char)
    requires |Split(s, separator)| == 2
    ensures var parts := Split(s, separator);
      s == parts[0] + [separator] + parts[1] && separator !in parts[0]
  {
    assert [s[0]] + s[1..] == s;
    if s[0] == separator {
      SplitOne(s[1..], separator);
    } else {
      SplitTwo(s[1..], separator);
    }
  }

  /** Exactly the tokens made of a first part without a point and the signature of that very part are read. */
  lemma VerifiedExactly(mac: Mac, secret: string, token: string)
    ensures Verified(mac, secret, token).Some? <==>
      exists first :: '.' !in first && token == first + "." + Sign(mac, secret, first)
  {
    hide Encode, Decode, Utf8, FromUtf8, Split;
    if Verified(mac, secret, token).Some? {
      SplitTwo(token, '.');
    }
    if first :| '.' !in first && token == first + "." + Sign(mac, secret, first) {
      var signature := Sign(mac, secret, first);
      EncodeHasNoPoint(Utf8(Encode(mac(secret, first))));
      assert token == first + ['.'] + signature;
      SplitAt(first, signature, '.');
      SplitWhole(signature, '.');
    }
  }

  /** Any other token is answered "invalid" by both readers. */
  lemma UnsignedIsInvalid(mac: Mac, secret: string, token: string, now: nat)
    requires forall first :: token == first + "." + Sign(mac, secret, first) ==> '.' in first
    ensures ParseActionToken(mac, secret, token, now) == Err(InvalidToken)
    ensures ParseUnsubscribeToken(mac, secret, token, now) == Err(InvalidToken)
  {
    hide Verified, Sign;
    VerifiedExactly(mac, secret, token);
  }

  /** Signatures are the same exactly when the keyed hashes are. */
  lemma SameSignatureExactly(mac: Mac, secret: string, text: string, secret': string, text': string)
    ensures Sign(mac, secret, text) == Sign(mac, secret', text') <==> mac(secret, text) == mac(secret', text')
  {
    hide Encode, Decode, Utf8, FromUtf8;
    var a, b := mac(secret, text), mac(secret', text');
    DecodeOfEncode(a);
    DecodeOfEncode(b);
    FromUtf8OfUtf8(Encode(a));
    FromUtf8OfUtf8(Encode(b));
    DecodeOfEncode(Utf8(Encode(a)));
    DecodeOfEncode(Utf8(Encode(b)));
  }

  lemma ExpiryReadsBack(exp: nat)
    ensures ParseInt(Print(exp)) == Some(exp) && '|' !in Print(exp)
  {
    var digits := Print(exp);
    assert digits == digits + "" && IsDigit(digits[0]);
    DigitRunOfPrefix(digits, "");
    ValueOfPrint(exp);
    assert forall i :: 0 <= i < |digits| ==> IsDigit(digits[i]);
  }

  lemma FieldsOfPayload(id: string, action: string, exp: nat)
    requires '|' !in id && '|' !in action
    ensures Split(PayloadText(id, action, exp), '|') == [id, action, Print(exp)]
  {
    ExpiryReadsBack(exp);
    assert PayloadText(id, action, exp) == id + ['|'] + (action + ['|'] + Print(exp));
    SplitAt(id, action + ['|'] + Print(exp), '|');
    SplitAt(action, Print(exp), '|');
    SplitWhole(Print(exp), '|');
  }

  /** With a separator inside, the id or the action read back is a shorter one. */
  lemma FieldsOfSplitPayload(id: string, action: string, exp: nat)
    requires '|' in id || '|' in action
    ensures var fields := Split(PayloadText(id, action, exp), '|');
      fields[0] != id || (|fields| >= 2 && fields[1] != action)
  {
    var tail := action + ['|'] + Print(exp);
    assert PayloadText(id, action, exp) == id + ['|'] + tail;
    if '|' in id {
      assert id + ['|'] + tail == id + (['|'] + tail);
      SplitFirstOf(id, ['|'] + tail, '|');
      SplitFirst(id, '|');
    } else {
      SplitAt(id, tail, '|');
      assert tail == action + (['|'] + Print(exp));
      SplitFirstOf(action, ['|'] + Print(exp), '|');
      SplitFirst(action, '|');
    }
  }

  /**
   * A fresh token gives back exactly the id, action and expiry that went in,
   * until it expires, if and only if neither the id nor the action is empty or
   * contains the separator.
   */
  lemma ActionTokenRoundTrip(mac: Mac, secret: string, id: string, action: string, created: nat, now: nat)
    ensures var exp := created + 30 * 86_400;
      ParseActionToken(mac, secret, CreateActionToken(mac, secret, id, action, created), now)
        == Ok(ActionPayload(id, action, exp)) <==>
      now <= exp && id != "" && action != "" && '|' !in id && '|' !in action
  {
    hide Verified, Token, Split, ParseInt;
    var exp := created + TOKEN_TTL_SECONDS;
    VerifiedToken(mac, secret, PayloadText(id, action, exp));
    ExpiryReadsBack(exp);
    if '|' in id || '|' in action {
      FieldsOfSplitPayload(id, action, exp);
    } else {
      FieldsOfPayload(id, action, exp);
    }
  }

  /** After its time a well-formed token is answered "expired", and never anything else. */
  lemma ActionTokenExpires(mac: Mac, secret: string, id: string, action: string, created: nat, now: nat)
    requires id != "" && action != "" && '|' !in id && '|' !in action && now > created + 30 * 86_400
    ensures ParseActionToken(mac, secret, CreateActionToken(mac, secret, id, action, created), now)
      == Err(TokenExpired)
  {
    hide Verified, Token, Split, ParseInt;
    var exp := created + TOKEN_TTL_SECONDS;
    VerifiedToken(mac, secret, PayloadText(id, action, exp));
    ExpiryReadsBack(exp);
    FieldsOfPayload(id, action, exp);
  }

  /** The action is "unsubscribe", or goes on behind a separator with a field that reads as the expiry. */
  predicate UnsubscribesAs(action: string, exp: nat) {
    || action == "unsubscribe"
    || ("unsubscribe|" <= action && ParseInt(Split(action[12..], '|')[0]) == Some(exp))
  }

  /** What an action link's payload splits into behind a well-formed identifier. */
  lemma FieldsAfterId(id: string, action: string, exp: nat)
    requires '|' !in id
    ensures Split(PayloadText(id, action, exp), '|') == [id] + Split(action + ['|'] + Print(exp), '|')
  {
    hide Split;
    assert PayloadText(id, action, exp) == id + ['|'] + (action + ['|'] + Print(exp));
    SplitAt(id, action + ['|'] + Print(exp), '|');
  }

  /** The first two fields of an action and its expiry say "unsubscribe" and the expiry exactly in two ways. */
  lemma UnsubscribeFields(action: string, exp: nat)
    ensures var fields := Split(action + ['|'] + Print(exp), '|');
      UnsubscribesAs(action, exp) <==>
        |fields| >= 2 && fields[0] == "unsubscribe" && ParseInt(fields[1]) == Some(exp)
  {
    hide Split, ParseInt;
    var text := action + ['|'] + Print(exp);
    var fields := Split(text, '|');
    ExpiryReadsBack(exp);
    if '|' in action {
      FirstField(action, '|');
      var head := Split(action, '|')[0];
      var rest := action[|head| + 1..];
      assert action == head + ['|'] + rest;
      assert text == head + ['|'] + (rest + (['|'] + Print(exp)));
      SplitAt(head, rest + (['|'] + Print(exp)), '|');
      SecondField(rest, exp);
      assert "unsubscribe|" <= action <==> head == "unsubscribe" by { StartsWithHead(action, head, rest); }
    } else {
      SplitAt(action, Print(exp), '|');
      SplitWhole(Print(exp), '|');
      HasSeparator(action);
    }
  }

  lemma StartsWithHead(action: string, head: string, rest: string)
    requires action == head + ['|'] + rest && '|' !in head
    ensures "unsubscribe|" <= action <==> head == "unsubscribe"
  {
    if "unsubscribe|" <= action {
      assert action == "unsubscribe" + ['|'] + action[12..];
      SplitAt("unsubscribe", action[12..], '|');
      SplitAt(head, rest, '|');
      assert Split(action, '|')[0] == "unsubscribe" && Split(action, '|')[0] == head;
    }
  }

  lemma HasSeparator(action: string)
    ensures "unsubscribe|" <= action ==> '|' in action
  {
    if "unsubscribe|" <= action {
      assert action[11] == "unsubscribe|"[11] == '|';
    }
  }

  lemma SecondField(rest: string, exp: nat)
    ensures Split(rest + (['|'] + Print(exp)), '|')[0] == Split(rest, '|')[0]
  {
    if '|' in rest {
      SplitFirstOf(rest, ['|'] + Print(exp), '|');
    } else {
      assert rest + (['|'] + Print(exp)) == rest + ['|'] + Print(exp);
      SplitAt(rest, Print(exp), '|');
      SplitWhole(rest, '|');
    }
  }

  /** Behind the first field stands the separator, if the text has one. */
  lemma {:induction false} FirstField(s: string, separator: char)
    requires separator in s
    ensures var head := Split(s, separator)[0];
      |head| < |s| && s[..|head|] == head && s[|head|] == separator && separator !in head
  {
    if s[0] != separator {
      FirstField(s[1..], separator);
      var rest := Split(s[1..], separator)[0];
      assert Split(s, separator)[0] == [s[0]] + rest;
      assert s[..|rest| + 1] == [s[0]] + s[1..][..|rest|];
    }
  }

  /**
   * The same for the unsubscribe link: identifier and expiry come back exactly
   * when it has not expired and the identifier is neither empty nor holds the
   * separator. An action link is read as that unsubscribe link exactly when
   * its action also says so.
   */
  lemma UnsubscribeTokenRoundTrip(mac: Mac, secret: string, id: string, action: string, created: nat, now: nat)
    ensures var exp := created + 30 * 86_400;
      && (ParseUnsubscribeToken(mac, secret, CreateUnsubscribeToken(mac, secret, id, created), now)
              == Ok((id, exp)) <==>
            now <= exp && id != "" && '|' !in id)
      && (id != "" && '|' !in id && now > exp ==>
            ParseUnsubscribeToken(mac, secret, CreateUnsubscribeToken(mac, secret, id, created), now)
              == Err(TokenExpired))
      && (ParseUnsubscribeToken(mac, secret, CreateActionToken(mac, secret, id, action, created), now)
              == Ok((id, exp)) <==>
            now <= exp && id != "" && '|' !in id && UnsubscribesAs(action, exp))
  {
    hide Verified, Token, Split, ParseInt, UnsubscribesAs;
    var exp := created + TOKEN_TTL_SECONDS;
    UnsubscribeReads(mac, secret, id, action, created, now);
    UnsubscribeReads(mac, secret, id, "unsubscribe", created, now);
    assert UnsubscribesAs("unsubscribe", exp) by { PlainUnsubscribes(exp); }
    if '|' !in id {
      FieldsAfterId(id, "unsubscribe", exp);
      UnsubscribeFields("unsubscribe", exp);
      VerifiedToken(mac, secret, PayloadText(id, "unsubscribe", exp));
      EmptyIsNoNumber();
    }
  }

  lemma PlainUnsubscribes(exp: nat)
    ensures UnsubscribesAs("unsubscribe", exp)
  {
  }

  lemma EmptyIsNoNumber()
    ensures ParseInt("") == None
  {
  }

  lemma UnsubscribeReads(mac: Mac, secret: string, id: string, action: string, created: nat, now: nat)
    ensures var exp := created + TOKEN_TTL_SECONDS;
      ParseUnsubscribeToken(mac, secret, CreateActionToken(mac, secret, id, action, created), now)
          == Ok((id, exp)) <==>
        now <= exp && id != "" && '|' !in id && UnsubscribesAs(action, exp)
  {
    hide Verified, Token, Split, ParseInt, UnsubscribesAs;
    var exp := created + TOKEN_TTL_SECONDS;
    VerifiedToken(mac, secret, PayloadText(id, action, exp));
    EmptyIsNoNumber();
    if '|' in id {
      var tail := ['|'] + action + ['|'] + Print(exp);
      assert PayloadText(id, action, exp) == id + tail;
      SplitFirstOf(id, tail, '|');
      SplitFirst(id, '|');
    } else {
      FieldsAfterId(id, action, exp);
      UnsubscribeFields(action, exp);
    }
  }
}
