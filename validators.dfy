/**
  The field validators of src/utils/validators.py. Each returns `(ok, message)`: `(true, "")`
  on success, `false` and a non-empty message on failure. The two regular expressions are
  stated position by position (EmailPattern, UsernamePattern) and the checks the model
  computes are proved to accept exactly the strings the expressions match.
 */
module Validators {
  import opened Wrappers
  import opened Seqs

  const MsgEmailRequired := "E-mail é obrigatório."
  const MsgEmailInvalid := "E-mail inválido."
  const MsgUsernameRequired := "Username é obrigatório."
  const MsgUsernameInvalid := "Username deve ter 3-20 caracteres e conter apenas letras, números e ._-."
  const MsgPasswordShort := "Senha deve ter pelo menos 6 caracteres."
  const MsgPasswordComposition := "Senha deve conter letras e números."

  predicate IsAsciiLetter(c: char) { 'A' <= c <= 'Z' || 'a' <= c <= 'z' }
  predicate IsAsciiDigit(c: char) { '0' <= c <= '9' }

  /** `[A-Za-z0-9._%+-]` */
  predicate IsLocalChar(c: char)
  {
    IsAsciiLetter(c) || IsAsciiDigit(c) || c == '.' || c == '_' || c == '%' || c == '+' || c == '-'
  }

  /** `[A-Za-z0-9.-]` */
  predicate IsDomainChar(c: char)
  {
    IsAsciiLetter(c) || IsAsciiDigit(c) || c == '.' || c == '-'
  }

  /** `[a-zA-Z0-9_.-]` */
  predicate IsUsernameChar(c: char)
  {
    IsAsciiLetter(c) || IsAsciiDigit(c) || c == '_' || c == '.' || c == '-'
  }

  predicate IsAtSign(c: char) { c == '@' }
  predicate IsDot(c: char) { c == '.' }

  /** `s` without one final "\n", which the `$` of a Python pattern lets through. */
  predicate EndsWithNewline(s: string) { s != [] && s[|s| - 1] == '\n' }

  /**
    One way of matching `[A-Za-z0-9._%+-]+@[A-Za-z0-9.-]+\.[A-Za-z]{2,}` against the whole of
    `s`: the '@' at `at`, the '.' before the top-level domain at `dot`.
   */
  ghost predicate EmailSplitAt(s: string, at: int, dot: int)
  {
    && 0 < at && at + 1 < dot && dot + 2 < |s|
    && s[at] == '@' && s[dot] == '.'
    && (forall i :: 0 <= i < at ==> IsLocalChar(s[i]))
    && (forall i :: at < i < dot ==> IsDomainChar(s[i]))
    && (forall i :: dot < i < |s| ==> IsAsciiLetter(s[i]))
  }

  /** The strings the e-mail expression matches in full. */
  ghost predicate EmailPattern(s: string)
  {
    exists at, dot :: EmailSplitAt(s, at, dot)
  }

  /**
    The check without backtracking: everything before the first '@' is a local part, everything
    after it is domain characters, and the last '.' has a non-empty part before it and at
    least two letters after it.
   */
  predicate EmailShape(s: string)
  {
    match FirstIndex(s, IsAtSign)
    case None => false
    case Some(at) =>
      var domain := s[at + 1..];
      && 0 < at
      && All(s[..at], IsLocalChar)
      && All(domain, IsDomainChar)
      && match LastIndex(domain, IsDot)
         case None => false
         case Some(k) => 0 < k && k + 2 < |domain| && All(domain[k + 1..], IsAsciiLetter)
  }

  lemma EmailShapeIsPattern(s: string)
    ensures EmailShape(s) <==> EmailPattern(s)
  {
    if EmailShape(s) {
      ShapeGivesSplit(s);
    }
    if EmailPattern(s) {
      var at, dot :| EmailSplitAt(s, at, dot);
      SplitGivesShape(s, at, dot);
    }
  }

  lemma ShapeGivesSplit(s: string)
    requires EmailShape(s)
    ensures EmailPattern(s)
  {
    var at := FirstIndex(s, IsAtSign).value;
    var domain := s[at + 1..];
    var k := LastIndex(domain, IsDot).value;
    var dot := at + 1 + k;
    assert forall i :: 0 <= i < at ==> s[i] == s[..at][i];
    assert forall i :: at < i < dot ==> s[i] == domain[i - at - 1];
    assert forall i :: dot < i < |s| ==> s[i] == domain[k + 1..][i - dot - 1];
    assert EmailSplitAt(s, at, dot);
  }

  lemma SplitGivesShape(s: string, at: int, dot: int)
    requires EmailSplitAt(s, at, dot)
    ensures EmailShape(s)
  {
    FirstIndexAt(s, IsAtSign, at);
    var domain := s[at + 1..];
    var k := dot - at - 1;
    assert forall i :: 0 <= i < |domain| ==> domain[i] == s[i + at + 1];
    assert All(domain, IsDomainChar);
    LastIndexAt(domain, IsDot, k);
    var tld := domain[k + 1..];
    assert forall i :: 0 <= i < |tld| ==> tld[i] == s[i + dot + 1];
    assert All(tld, IsAsciiLetter);
    assert All(s[..at], IsLocalChar);
  }

  /** `validar_email` */
  function ValidateEmail(email: string): (r: (bool, string))
    ensures email == "" ==> r == (false, MsgEmailRequired)
    ensures r.0 <==> EmailPattern(email) || (EndsWithNewline(email) && EmailPattern(email[..|email| - 1]))
    ensures r.0 ==> r.1 == ""
    ensures email != "" && !r.0 ==> r.1 == MsgEmailInvalid
  {
    EmailShapeIsPattern(email);
    if email == "" then (false, MsgEmailRequired)
    else
      EmailShapeIsPattern(email[..|email| - 1]);
      if !(EmailShape(email) || (EndsWithNewline(email) && EmailShape(email[..|email| - 1]))) then
        (false, MsgEmailInvalid)
      else (true, "")
  }

  /** The strings `[a-zA-Z0-9_.-]{3,20}` matches in full. */
  ghost predicate UsernamePattern(s: string)
  {
    3 <= |s| <= 20 && forall i :: 0 <= i < |s| ==> IsUsernameChar(s[i])
  }

  /** `validar_username` */
  function ValidateUsername(username: string): (r: (bool, string))
    ensures username == "" ==> r == (false, MsgUsernameRequired)
    ensures r.0 <==> UsernamePattern(username) || (EndsWithNewline(username) && UsernamePattern(username[..|username| - 1]))
    ensures r.0 ==> r.1 == ""
    ensures username != "" && !r.0 ==> r.1 == MsgUsernameInvalid
  {
    var body := if EndsWithNewline(username) then username[..|username| - 1] else username;
    if username == "" then (false, MsgUsernameRequired)
    else if !(3 <= |body| <= 20 && All(body, IsUsernameChar)) then (false, MsgUsernameInvalid)
    else (true, "")
  }

  /** `validar_senha`; letters and digits are the ASCII ones. */
  function ValidatePassword(password: string): (r: (bool, string))
    ensures |password| < 6 ==> r == (false, MsgPasswordShort)
    ensures |password| >= 6 ==>
      (r.0 <==> ((exists i :: 0 <= i < |password| && IsAsciiLetter(password[i]))
                 && (exists i :: 0 <= i < |password| && IsAsciiDigit(password[i]))))
    ensures r.0 ==> r.1 == ""
    ensures |password| >= 6 && !r.0 ==> r.1 == MsgPasswordComposition
  {
    if |password| < 6 then (false, MsgPasswordShort)
    else if !Any(password, IsAsciiLetter) || !Any(password, IsAsciiDigit) then (false, MsgPasswordComposition)
    else (true, "")
  }
}
