/** The CSRF state of the OAuth flow: a random hex token and its validation against the copy
    kept in the session. Validation compares UTF-8 bytes with `crypto.timingSafeEqual`, which
    throws when the two byte strings differ in length. */
module StateManager {
  import opened Bytes
  import opened Results
  import opened Pkce

  /** `generateState`: the hex rendering of 32 random bytes. */
  function GenerateState(random: Digest): (s: string)
    ensures |s| == 64
    ensures forall i :: 0 <= i < |s| ==> IsLowerHexDigit(s[i])
    ensures DecodeHex(s) == random
  {
    HexRoundTrip(random);
    Hex(random)
  }

  /** The `RangeError` that `timingSafeEqual` throws for inputs of different byte lengths. */
  datatype StateError = LengthMismatch

  /** `validateState` as written: false when either state is missing or empty; otherwise the
      byte comparison, which throws when the UTF-8 lengths differ. */
  function ValidateState(stored: string, received: string): (r: Result<bool, StateError>)
    ensures stored == [] || received == [] ==> r == Success(false)
    ensures stored != [] && received != [] && |Utf8(stored)| != |Utf8(received)| ==> r == Failure(LengthMismatch)
  {
    if stored == [] || received == [] then Success(false)
    else
      var a, b := Utf8(stored), Utf8(received);
      if |a| != |b| then Failure(LengthMismatch) else Success(a == b)
  }

  /** Equal non-empty states validate. */
  lemma ValidateStateEqual(state: string)
    requires state != []
    ensures ValidateState(state, state) == Success(true)
  {
  }

  /** Different states of the same byte length are rejected without an error. */
  lemma ValidateStateDifferent(stored: string, received: string)
    requires stored != [] && received != [] && stored != received
    requires |Utf8(stored)| == |Utf8(received)|
    ensures ValidateState(stored, received) == Success(false)
  {
    if Utf8(stored) == Utf8(received) {
      Utf8Injective(stored, received);
    }
  }

  /** Whenever the as-written check returns a value, it returns true exactly for equal
      non-empty states. */
  lemma ValidateStateMeaning(stored: string, received: string)
    requires ValidateState(stored, received).Success?
    ensures ValidateState(stored, received).value <==> stored != [] && stored == received
  {
    if stored != [] && received != [] && Utf8(stored) == Utf8(received) {
      Utf8Injective(stored, received);
    }
  }

  /** The check does not depend on the order of its arguments. */
  lemma ValidateStateSymmetric(stored: string, received: string)
    ensures ValidateState(stored, received) == ValidateState(received, stored)
  {
  }

  /** A tampered state of another length makes the check throw instead of returning false. */
  lemma ValidateStateThrows()
    ensures ValidateState("a", "ab") == Failure(LengthMismatch)
  {
    assert Utf8("a") == [0x61];
    assert Utf8("ab") == [0x61, 0x62];
  }

  /** The validation with the length guard added: states of different lengths are simply
      different. */
  function ValidateStateGuarded(stored: string, received: string): (ok: bool)
    ensures ok <==> stored != [] && stored == received
  {
    if stored == [] || received == [] then false
    else
      var a, b := Utf8(stored), Utf8(received);
      if |a| != |b| then false
      else
        (if a == b then Utf8Injective(stored, received); true else false)
  }

  /** The guarded check agrees with the original wherever the original returns. */
  lemma GuardedAgrees(stored: string, received: string)
    requires ValidateState(stored, received).Success?
    ensures ValidateStateGuarded(stored, received) == ValidateState(stored, received).value
  {
    ValidateStateMeaning(stored, received);
  }

  /** Where the OAuth callback sends the browser after its state check. */
  datatype CallbackStep = InvalidStateRedirect | TokenExchangeFailedRedirect | ContinueToTokenExchange

  /** `if (!state || !validateState(...))` inside the callback's `try`: a thrown validation error
      lands in the `catch`, which reports a failed token exchange. */
  function CallbackStateCheck(stored: string, received: string): (step: CallbackStep)
    ensures step == ContinueToTokenExchange <==> stored != [] && stored == received
  {
    if received == [] then InvalidStateRedirect
    else match ValidateState(stored, received)
      case Failure(_) => TokenExchangeFailedRedirect
      case Success(ok) => ValidateStateMeaning(stored, received); if ok then ContinueToTokenExchange else InvalidStateRedirect
  }

  /** The callback with the guarded check: every rejected state is reported as invalid. */
  function CallbackStateCheckGuarded(stored: string, received: string): (step: CallbackStep)
    ensures step == ContinueToTokenExchange <==> stored != [] && stored == received
    ensures step != ContinueToTokenExchange ==> step == InvalidStateRedirect
  {
    if received == [] || !ValidateStateGuarded(stored, received) then InvalidStateRedirect else ContinueToTokenExchange
  }

  /** As written, a forged state of another length is reported as a failed token exchange, not
      as a CSRF failure; the guarded check reports it as invalid. */
  lemma CallbackMisreportsForgedState()
    ensures CallbackStateCheck("a", "ab") == TokenExchangeFailedRedirect
    ensures CallbackStateCheckGuarded("a", "ab") == InvalidStateRedirect
  {
    ValidateStateThrows();
  }
}
