/** The new-password form (app/resetar-senha/page.tsx): the five password
    rules with one message per failed rule, the strength bar computed from
    the same five tests, and the order of the checks made before the reset
    request. */
module ResetarSenha {
  import opened Text
  import opened Wrappers
  import opened Lists

  /** The class `[!@#$%^&*(),.?":{}|<>]`. */
  predicate IsListedSpecial(c: char) { c in "!@#$%^&*(),.?\":{}|<>" }

  /** The five tests, in the order the page makes them: at least 8
      characters, an upper-case letter, a lower-case letter, a digit, and a
      listed special character. */
  function PasswordRules(pwd: string): (rules: seq<bool>)
    ensures |rules| == 5
  {
    [ |pwd| >= 8,
      Contains(pwd, IsAsciiUpper),
      Contains(pwd, IsAsciiLower),
      Contains(pwd, IsDigit),
      Contains(pwd, IsListedSpecial) ]
  }

  /** The message of each rule, in rule order. */
  const RuleMessages: seq<string> := [
    "Mínimo de 8 caracteres",
    "Pelo menos uma letra maiúscula",
    "Pelo menos uma letra minúscula",
    "Pelo menos um número",
    "Pelo menos um caractere especial"
  ]

  function FailedMessage(ok: bool, message: string): seq<string>
  {
    if ok then [] else [message]
  }

  /** The messages of the failed rules, in rule order. */
  function FailedMessages(rules: seq<bool>, messages: seq<string>): (r: seq<string>)
    requires |rules| == |messages|
    ensures |r| + CountTrue(rules) == |rules|
  {
    if rules == [] then []
    else FailedMessage(rules[0], messages[0]) + FailedMessages(rules[1..], messages[1..])
  }

  /** Five rules give each message at most once, one rule after the other. */
  lemma FailedMessagesOfFive(rules: seq<bool>, messages: seq<string>)
    requires |rules| == 5 && |messages| == 5
    ensures FailedMessages(rules, messages) ==
      FailedMessage(rules[0], messages[0]) + FailedMessage(rules[1], messages[1]) +
      FailedMessage(rules[2], messages[2]) + FailedMessage(rules[3], messages[3]) +
      FailedMessage(rules[4], messages[4])
  {
    var f0, f1, f2 := FailedMessage(rules[0], messages[0]), FailedMessage(rules[1], messages[1]),
      FailedMessage(rules[2], messages[2]);
    var f3, f4 := FailedMessage(rules[3], messages[3]), FailedMessage(rules[4], messages[4]);
    assert FailedMessages(rules[4..], messages[4..]) == f4 by {
      assert rules[4..][1..] == [] && messages[4..][1..] == [];
    }
    assert FailedMessages(rules[3..], messages[3..]) == f3 + f4 by {
      assert rules[3..][1..] == rules[4..] && messages[3..][1..] == messages[4..];
    }
    assert FailedMessages(rules[2..], messages[2..]) == f2 + (f3 + f4) by {
      assert rules[2..][1..] == rules[3..] && messages[2..][1..] == messages[3..];
    }
    assert FailedMessages(rules[1..], messages[1..]) == f1 + (f2 + (f3 + f4)) by {
      assert rules[1..][1..] == rules[2..] && messages[1..][1..] == messages[2..];
    }
    RegroupFive(f0, f1, f2, f3, f4);
  }

  lemma RegroupFive<T>(a: seq<T>, b: seq<T>, c: seq<T>, d: seq<T>, e: seq<T>)
    ensures a + (b + (c + (d + e))) == a + b + c + d + e
  {
    assert c + (d + e) == c + d + e;
    assert b + (c + d + e) == b + c + d + e;
  }

  /** `validatePassword`: one message pushed per failed rule. */
  method ValidatePassword(pwd: string) returns (errors: seq<string>)
    ensures errors == FailedMessages(PasswordRules(pwd), RuleMessages)
    ensures |errors| + CountTrue(PasswordRules(pwd)) == 5
    ensures errors == [] <==>
      |pwd| >= 8 && Contains(pwd, IsAsciiUpper) && Contains(pwd, IsAsciiLower) &&
      Contains(pwd, IsDigit) && Contains(pwd, IsListedSpecial)
  {
    var rules := PasswordRules(pwd);
    FailedMessagesOfFive(rules, RuleMessages);
    errors := [];
    if |pwd| < 8 {
      errors := errors + [RuleMessages[0]];
    }
    assert errors == FailedMessage(rules[0], RuleMessages[0]);
    if !Contains(pwd, IsAsciiUpper) {
      errors := errors + [RuleMessages[1]];
    }
    assert errors == FailedMessage(rules[0], RuleMessages[0]) + FailedMessage(rules[1], RuleMessages[1]);
    if !Contains(pwd, IsAsciiLower) {
      errors := errors + [RuleMessages[2]];
    }
    assert errors == FailedMessage(rules[0], RuleMessages[0]) + FailedMessage(rules[1], RuleMessages[1])
      + FailedMessage(rules[2], RuleMessages[2]);
    if !Contains(pwd, IsDigit) {
      errors := errors + [RuleMessages[3]];
    }
    assert errors == FailedMessage(rules[0], RuleMessages[0]) + FailedMessage(rules[1], RuleMessages[1])
      + FailedMessage(rules[2], RuleMessages[2]) + FailedMessage(rules[3], RuleMessages[3]);
    if !Contains(pwd, IsListedSpecial) {
      errors := errors + [RuleMessages[4]];
    }
    NoFailedMessages(pwd);
  }

  /** No message is shown exactly when every rule passes. */
  lemma NoFailedMessages(pwd: string)
    ensures FailedMessages(PasswordRules(pwd), RuleMessages) == [] <==>
      |pwd| >= 8 && Contains(pwd, IsAsciiUpper) && Contains(pwd, IsAsciiLower) &&
      Contains(pwd, IsDigit) && Contains(pwd, IsListedSpecial)
  {
    FailedMessagesOfFive(PasswordRules(pwd), RuleMessages);
  }

  datatype StrengthBar = StrengthBar(caption: string, color: string, width: string)

  /** `getPasswordStrength`: the bar for the number of passed tests. */
  function GetPasswordStrength(password: string): (bar: StrengthBar)
    ensures bar.caption in ["Fraca", "Média", "Forte", "Muito Forte"]
  {
    var strength := CountTrue(PasswordRules(password));
    if strength <= 2 then StrengthBar("Fraca", "bg-red-500", "w-1/3")
    else if strength <= 3 then StrengthBar("Média", "bg-yellow-500", "w-2/3")
    else if strength <= 4 then StrengthBar("Forte", "bg-orange-500", "w-5/6")
    else StrengthBar("Muito Forte", "bg-emerald-500", "w-full")
  }

  /** The bar's label tells how many rule messages the form would show:
      three or more, two, one, or none. */
  lemma StrengthLabelOfErrors(pwd: string)
    ensures var errors := FailedMessages(PasswordRules(pwd), RuleMessages);
      var caption := GetPasswordStrength(pwd).caption;
      && (caption == "Fraca" <==> |errors| >= 3)
      && (caption == "Média" <==> |errors| == 2)
      && (caption == "Forte" <==> |errors| == 1)
      && (caption == "Muito Forte" <==> errors == [])
  {
  }

  datatype ResetOutcome =
    | TokenMissing                 // "Token não encontrado na URL."
    | ShowErrors(errors: seq<string>)
    | Request(token: string, novaSenha: string)

  const MismatchMessage := "As senhas não coincidem"

  /** `handleSubmit` up to the request: the token first, then the rules, then
      the confirmation; each failure returns before any request. A token is
      present when the link carried a non-empty one. */
  method SubmitReset(token: Option<string>, password: string, confirmPassword: string)
    returns (r: ResetOutcome)
    ensures r == TokenMissing <==> token == None || token == Some("")
    ensures token != None && token != Some("") ==>
      var errors := FailedMessages(PasswordRules(password), RuleMessages);
      && (errors != [] ==> r == ShowErrors(errors))
      && (errors == [] && password != confirmPassword ==> r == ShowErrors([MismatchMessage]))
      && (errors == [] && password == confirmPassword ==> r == Request(token.value, password))
    ensures r.Request? ==> GetPasswordStrength(password).caption == "Muito Forte"
  {
    if token == None || token == Some("") {
      return TokenMissing;
    }
    var passwordErrors := ValidatePassword(password);
    if |passwordErrors| > 0 {
      return ShowErrors(passwordErrors);
    }
    if password != confirmPassword {
      return ShowErrors([MismatchMessage]);
    }
    StrengthLabelOfErrors(password);
    r := Request(token.value, password);
  }
}
