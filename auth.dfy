/** Username validation and the login gate (src/components/Auth.jsx). A CJK
    ideograph of the basic block U+4E00..U+9FA5 weighs 2, every other code
    point 1; a name must weigh 2..14 and consist of ASCII letters, digits,
    such ideographs, '_' and '-'. The backend lookup and account creation
    are one reply given to the gate. */
module Auth {
  import opened Js

  /** The range of `/[一-龥]/`. */
  predicate IsCjk(c: char) {
    0x4E00 <= c as int <= 0x9FA5
  }

  /** One character of the class in USERNAME_REGEX: `a-zA-Z0-9`, the CJK
      range and the ALLOWED_SYMBOLS `_` and `-`. */
  predicate Allowed(c: char) {
    ('a' <= c <= 'z') || ('A' <= c <= 'Z') || ('0' <= c <= '9') || IsCjk(c) || c == '_' || c == '-'
  }

  /** `USERNAME_REGEX.test(s)`: one or more allowed characters and nothing else. */
  predicate MatchesUsernameRegex(s: string) {
    |s| >= 1 && forall i :: 0 <= i < |s| ==> Allowed(s[i])
  }

  function CharWeight(c: char): nat {
    if IsCjk(c) then 2 else 1
  }

  /** The weighted length, summed from the front. */
  function Weight(s: string): nat {
    if s == [] then 0 else CharWeight(s[0]) + Weight(s[1..])
  }

  function CjkCount(s: string): nat {
    if s == [] then 0 else (if IsCjk(s[0]) then 1 else 0) + CjkCount(s[1..])
  }

  lemma {:induction false} WeightSplit(s: string, i: nat)
    requires i < |s|
    ensures Weight(s[..i + 1]) == Weight(s[..i]) + CharWeight(s[i])
  {
    if i > 0 {
      assert s[..i + 1][1..] == s[1..][..i];
      assert s[..i][1..] == s[1..][..i - 1];
      WeightSplit(s[1..], i - 1);
    }
  }

  /** The weight is the number of code points plus the number of CJK
      ideographs among them. */
  lemma {:induction false} WeightCounts(s: string)
    ensures Weight(s) == |s| + CjkCount(s)
    ensures CjkCount(s) <= |s|
  {
    if s != [] {
      WeightCounts(s[1..]);
    }
  }

  datatype Validation = TooShort | TooLong | BadCharacters | Valid

  function Message(v: Validation): string {
    match v
    case TooShort => "用户名太短了 (最少2位英文字符或1个汉字)。"
    case TooLong => "用户名太长了 (最多14位英文字符或7个汉字)。"
    case BadCharacters => "用户名只能包含中文、字母、数字、下划线(_)和连字符(-)。"
    case Valid => "验证通过"
  }

  /** The verdict of `validateUsername`; the checks run in this order. */
  function Validate(s: string): Validation {
    var w := Weight(s);
    if w < 2 then TooShort
    else if w > 14 then TooLong
    else if !MatchesUsernameRegex(s) then BadCharacters
    else Valid
  }

  /** `validateUsername`: the for-of loop over code points, then the checks. */
  method ValidateUsername(username: string) returns (isValid: bool, message: string)
    ensures isValid <==> Validate(username) == Valid
    ensures message == Message(Validate(username))
  {
    var weightedLength := 0;
    for i := 0 to |username|
      invariant weightedLength == Weight(username[..i])
    {
      WeightSplit(username, i);
      if IsCjk(username[i]) {
        weightedLength := weightedLength + 2;
      } else {
        weightedLength := weightedLength + 1;
      }
    }
    assert username[..|username|] == username;
    if weightedLength < 2 {
      return false, Message(TooShort);
    }
    if weightedLength > 14 {
      return false, Message(TooLong);
    }
    if !MatchesUsernameRegex(username) {
      return false, Message(BadCharacters);
    }
    return true, Message(Valid);
  }

  /** A name is valid exactly when it weighs 2..14 and every character is
      allowed; the empty name and a name of one non-CJK character are too
      short, whatever that character is. */
  lemma ValidateSpec(s: string)
    ensures Validate(s) == Valid <==> 2 <= Weight(s) <= 14 && forall i :: 0 <= i < |s| ==> Allowed(s[i])
    ensures Validate(s) == TooShort <==> Weight(s) < 2
    ensures Validate(s) == TooLong <==> Weight(s) > 14
    ensures |s| == 0 ==> Validate(s) == TooShort
    ensures |s| == 1 && !IsCjk(s[0]) ==> Validate(s) == TooShort
  {
    WeightCounts(s);
    if |s| == 1 {
      assert s[1..] == [];
    }
  }

  /** The messages' bounds: a name that is long enough has two characters or
      one ideograph, and a valid name has at most 7 ideographs and at most
      14 characters. */
  lemma WeightBounds(s: string)
    ensures Weight(s) >= 2 <==> |s| >= 2 || (|s| == 1 && IsCjk(s[0]))
    ensures Validate(s) == Valid ==> CjkCount(s) <= 7 && |s| <= 14
  {
    WeightCounts(s);
    if |s| == 1 {
      assert s[1..] == [];
      assert CjkCount(s) == (if IsCjk(s[0]) then 1 else 0);
    }
  }

  /** What the backend answers for a valid name: the existing account, a new
      one it created, or an error with its message. */
  datatype Reply = Existing(user: string) | Created(user: string) | Failed(message: string)

  class LoginForm {
    var username: string
    var loading: bool
    /** The names looked up in the backend, oldest first. */
    var lookups: seq<string>
    var alerts: seq<string>
    var loggedIn: Option<string>

    constructor ()
      ensures username == "" && !loading && lookups == [] && alerts == [] && loggedIn == None
    {
      username := "";
      loading := false;
      lookups := [];
      alerts := [];
      loggedIn := None;
    }

    /** `handleProceed`. An invalid name is reported and goes no further: the
        backend is consulted only for a valid one. */
    method HandleProceed(reply: Reply)
      modifies this
      ensures username == old(username)
      ensures Validate(username) != Valid ==>
        loading == old(loading) && lookups == old(lookups) && alerts == old(alerts) + [Message(Validate(username))]
        && loggedIn == old(loggedIn)
      ensures Validate(username) == Valid ==>
        && !loading
        && lookups == old(lookups) + [username]
        && (reply.Failed? ==> alerts == old(alerts) + [reply.message] && loggedIn == old(loggedIn))
        && (!reply.Failed? ==> alerts == old(alerts) && loggedIn == Some(reply.user))
    {
      var isValid, message := ValidateUsername(username);
      if !isValid {
        alerts := alerts + [message];
        return;
      }
      loading := true;
      lookups := lookups + [username];
      match reply {
        case Existing(user) => loggedIn := Some(user);
        case Created(user) => loggedIn := Some(user);
        case Failed(msg) => alerts := alerts + [msg];
      }
      loading := false;
    }
  }
}
