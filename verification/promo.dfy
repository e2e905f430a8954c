/** The promotion-code screen: a ten-key pad filling a digit buffer of at
    most ten characters, a backspace key, and the redeem request whose
    reply decides whether the kiosk moves on to the payment result. */
module Promo {
  import opened Wrappers

  /** Longest code the keypad accepts. */
  const MaxCodeLength: nat := 10

  /** A keypad key: the digits 0 to 9. */
  type Digit = d: int | 0 <= d <= 9

  datatype PromoState = PromoState(code: string, submitting: bool)

  const Initial: PromoState := PromoState("", false)

  /** How `prev + num` renders a one-digit number. */
  function DigitChar(d: Digit): (c: char)
    ensures '0' <= c <= '9'
    ensures c as int - '0' as int == d
  {
    ('0' as int + d) as char
  }

  /** `handleNumberClick`: appends the digit while the code is shorter than ten. */
  function NumberClick(s: PromoState, d: Digit): (r: PromoState)
    ensures r.submitting == s.submitting
    ensures |s.code| < MaxCodeLength ==>
              |r.code| == |s.code| + 1 && r.code[..|s.code|] == s.code && r.code[|s.code|] == DigitChar(d)
    ensures |s.code| >= MaxCodeLength ==> r == s
  {
    if |s.code| < MaxCodeLength then s.(code := s.code + [DigitChar(d)]) else s
  }

  /** `handleBackspace`: `slice(0, -1)` drops the last character, or nothing. */
  function Backspace(s: PromoState): (r: PromoState)
    ensures r.submitting == s.submitting
    ensures |s.code| > 0 ==> r.code + [s.code[|s.code| - 1]] == s.code
    ensures |s.code| == 0 ==> r.code == ""
  {
    if |s.code| == 0 then s else s.(code := s.code[..|s.code| - 1])
  }

  /** What the keypad can produce: at most ten characters, all digits. */
  ghost predicate ValidCode(c: string)
  {
    |c| <= MaxCodeLength && forall i :: 0 <= i < |c| ==> '0' <= c[i] <= '9'
  }

  datatype Key = Number(d: Digit) | Back

  function Press(s: PromoState, k: Key): PromoState
  {
    match k
    case Number(d) => NumberClick(s, d)
    case Back => Backspace(s)
  }

  function Type(s: PromoState, keys: seq<Key>): PromoState
    decreases |keys|
  {
    if |keys| == 0 then s else Type(Press(s, keys[0]), keys[1..])
  }

  /** Whatever is typed, the code stays at most ten digits long. */
  lemma {:induction false} TypingKeepsCodeValid(s: PromoState, keys: seq<Key>)
    requires ValidCode(s.code)
    ensures ValidCode(Type(s, keys).code)
    decreases |keys|
  {
    if |keys| > 0 {
      var t := Press(s, keys[0]);
      assert ValidCode(t.code);
      TypingKeepsCodeValid(t, keys[1..]);
    }
  }

  /** A digit then backspace restores a code that had room. */
  lemma DigitThenBackspace(s: PromoState, d: Digit)
    requires |s.code| < MaxCodeLength
    ensures Backspace(NumberClick(s, d)) == s
  {
  }

  /** The redeem button is disabled for an empty code or while a request is in flight. */
  predicate RedeemEnabled(s: PromoState)
  {
    s.code != "" && !s.submitting
  }

  /** The parsed reply of the redeem endpoint. */
  datatype Reply = Reply(status: string, orderCode: string)

  /** Where the redeem request leaves the screen: the state after the
      `finally` block, and the order code stored when navigating on. */
  datatype Redeemed = Redeemed(state: PromoState, navigateWith: Option<string>)

  /** While the request is in flight. */
  function BeginSubmit(s: PromoState): (r: PromoState)
    ensures r.submitting && r.code == s.code
    ensures !RedeemEnabled(r)
  {
    s.(submitting := true)
  }

  /** `handleSubmit` once the request settles. `None` is a failed fetch or
      an unparsable body: the error is only logged. */
  function FinishSubmit(s: PromoState, reply: Option<Reply>): (r: Redeemed)
    ensures !r.state.submitting && r.state.code == s.code
    ensures r.navigateWith.Some? <==> reply.Some? && reply.value.status == "OK"
    ensures r.navigateWith.Some? ==> r.navigateWith.value == reply.value.orderCode
  {
    var next := s.(submitting := false);
    match reply
    case Some(p) => if p.status == "OK" then Redeemed(next, Some(p.orderCode)) else Redeemed(next, None)
    case None => Redeemed(next, None)
  }

  /** After any redeem attempt the button is enabled again exactly when the
      code is non-empty; only an "OK" status leaves the screen. */
  lemma RedeemRoundTrip(s: PromoState, reply: Option<Reply>)
    ensures var r := FinishSubmit(BeginSubmit(s), reply);
            && r.state == s.(submitting := false)
            && (RedeemEnabled(r.state) <==> s.code != "")
            && (reply.Some? && reply.value.status != "OK" ==> r.navigateWith.None?)
  {
  }
}
