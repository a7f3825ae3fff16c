/** `CreateBucketView.validateBucketName`: five checks in order, the first
    that fails deciding the message. The two regular expressions are
    matched as `NSRegularExpression` (ICU) matches them: without the
    multiline option `^` is the start of the input, and `$` is the end of
    the input or the position just before a line terminator that ends the
    input. `Anchor` chooses between that reading (`IcuEnd`, the code as
    written) and the end of input only (`InputEnd`, what the checks intend). */
module BucketNames {
  import opened Strings

  datatype Anchor = IcuEnd | InputEnd

  /** ICU's line terminators. */
  predicate LineTerminator(c: char) {
    c == '\n' || c == '\U{0B}' || c == '\U{0C}' || c == '\r'
    || c == '\U{85}' || c == '\U{2028}' || c == '\U{2029}'
  }

  /** `$` holds at position `i` of `s`. Under ICU: at the end; before a final
      terminator, except between the CR and LF of a final CRLF; before a
      final CRLF. */
  predicate DollarAt(anchor: Anchor, s: string, i: nat) {
    i == |s|
    || (anchor == IcuEnd && i + 1 == |s| && LineTerminator(s[i]) && !(s[i] == '\n' && i > 0 && s[i - 1] == '\r'))
    || (anchor == IcuEnd && i + 2 == |s| && s[i] == '\r' && s[i + 1] == '\n')
  }

  predicate LowerOrDigit(c: char) { 'a' <= c <= 'z' || '0' <= c <= '9' }

  predicate NameChar(c: char) { LowerOrDigit(c) || c == '.' || c == '-' }

  /** `[a-z0-9][a-z0-9.-]*[a-z0-9]` matching all of `s`. */
  predicate NameBody(s: string) {
    |s| >= 2 && LowerOrDigit(s[0]) && LowerOrDigit(s[|s| - 1])
    && forall i :: 0 < i < |s| - 1 ==> NameChar(s[i])
  }

  /** `\d+(\.\d+)` repeated to `n` runs, matching all of `s`. */
  predicate DigitRuns(s: string, n: nat)
    decreases |s|
  {
    |s| > 0 && IsDigit(s[0]) && RunTail(s[1..], n)
  }

  /** The rest of a digit run already begun, then `n - 1` more runs. */
  predicate RunTail(s: string, n: nat)
    decreases |s|
  {
    if s == [] then n == 1
    else if IsDigit(s[0]) then RunTail(s[1..], n)
    else s[0] == '.' && n > 1 && DigitRuns(s[1..], n - 1)
  }

  /** A pattern anchored with `^` and `$` matches when its body matches
      `s[..i]` for a position `i` where `$` holds; only the last three
      positions can qualify. */
  predicate NamePatternMatch(anchor: Anchor, s: string) {
    (NameBody(s))
    || (|s| >= 1 && DollarAt(anchor, s, |s| - 1) && NameBody(s[..|s| - 1]))
    || (|s| >= 2 && DollarAt(anchor, s, |s| - 2) && NameBody(s[..|s| - 2]))
  }

  predicate IpPatternMatch(anchor: Anchor, s: string) {
    (DigitRuns(s, 4))
    || (|s| >= 1 && DollarAt(anchor, s, |s| - 1) && DigitRuns(s[..|s| - 1], 4))
    || (|s| >= 2 && DollarAt(anchor, s, |s| - 2) && DigitRuns(s[..|s| - 2], 4))
  }

  datatype NameProblem = EmptyName | BadLength | BadCharacters | DotsOrHyphen | LooksLikeIp

  function Message(p: NameProblem): string {
    match p
    case EmptyName => "存儲桶名稱不能為空"
    case BadLength => "存儲桶名稱必須在3到63個字符之間"
    case BadCharacters => "存儲桶名稱只能包含小寫字母、數字、連字符和點，且必須以字母或數字開頭和結尾"
    case DotsOrHyphen => "存儲桶名稱不能包含連續的點，也不能以連字符開頭或結尾"
    case LooksLikeIp => "存儲桶名稱不能是 IP 地址格式"
  }

  /** The first check `name` fails, or None when it passes all five. */
  function FirstProblem(anchor: Anchor, name: string): Option<NameProblem> {
    if name == [] then Some(EmptyName)
    else if |name| < 3 || |name| > 63 then Some(BadLength)
    else if !NamePatternMatch(anchor, name) then Some(BadCharacters)
    else if Contains(name, "..") || StartsWith(name, "-") || EndsWith(name, "-") then Some(DotsOrHyphen)
    else if IpPatternMatch(anchor, name) then Some(LooksLikeIp)
    else None
  }

  /** The checks as the code runs them. */
  function ProblemAsWritten(name: string): Option<NameProblem> {
    FirstProblem(IcuEnd, name)
  }

  /** The checks as they are meant: both patterns match the whole name. */
  function Problem(name: string): Option<NameProblem> {
    FirstProblem(InputEnd, name)
  }

  /** Every digit run string is made of digits and dots, starting and ending
      with a digit. */
  lemma {:induction false} DigitRunsChars(s: string, n: nat)
    ensures DigitRuns(s, n) ==> IsDigit(s[0]) && IsDigit(s[|s| - 1])
    ensures DigitRuns(s, n) ==> forall i :: 0 <= i < |s| ==> IsDigit(s[i]) || s[i] == '.'
    decreases |s|, 1
  {
    if DigitRuns(s, n) && |s| > 1 {
      RunTailChars(s[1..], n);
    }
  }

  lemma {:induction false} RunTailChars(s: string, n: nat)
    requires RunTail(s, n) && s != []
    ensures IsDigit(s[|s| - 1])
    ensures forall i :: 0 <= i < |s| ==> IsDigit(s[i]) || s[i] == '.'
    decreases |s|, 0
  {
    if IsDigit(s[0]) {
      if |s| > 1 {
        RunTailChars(s[1..], n);
      }
    } else {
      DigitRunsChars(s[1..], n - 1);
    }
  }

  /** A string with no dot followed by a dot does not contain "..". */
  lemma {:induction false} NoDoubleDot(s: string)
    ensures (forall i :: 0 <= i < |s| - 1 ==> !(s[i] == '.' && s[i + 1] == '.')) ==> !Contains(s, "..")
    decreases |s|
  {
    if |s| > 0 && forall i :: 0 <= i < |s| - 1 ==> !(s[i] == '.' && s[i + 1] == '.') {
      NoDoubleDot(s[1..]);
      forall i | 0 <= i < |s| - 2 ensures !(s[1..][i] == '.' && s[1..][i + 1] == '.') {
        assert s[1..][i] == s[i + 1] && s[1..][i + 1] == s[i + 2];
      }
      if |s| >= 2 {
        assert s[..2] == [s[0], s[1]];
      }
    }
  }

  /** The names the intended checks accept, said directly: 3 to 63
      characters from lower-case letters, digits, dots and hyphens, a letter
      or digit at each end, no two dots in a row, and not four dot-separated
      digit runs. The hyphen test of the fourth check never fires, because
      the pattern already rules out a hyphen at either end. */
  lemma AcceptedIff(name: string)
    ensures Problem(name).None? <==>
      3 <= |name| <= 63
      && (forall i :: 0 <= i < |name| ==> NameChar(name[i]))
      && LowerOrDigit(name[0]) && LowerOrDigit(name[|name| - 1])
      && !Contains(name, "..")
      && !DigitRuns(name, 4)
    ensures NamePatternMatch(InputEnd, name) ==> !StartsWith(name, "-") && !EndsWith(name, "-")
  {
    if NamePatternMatch(InputEnd, name) {
      assert name[..1][0] == name[0];
      assert name[|name| - 1..][0] == name[|name| - 1];
    }
  }

  /** The fourth check is reachable: "a..b" passes the pattern and is
      rejected for its double dot. */
  lemma DoubleDotRejected()
    ensures Problem("a..b") == Some(DotsOrHyphen)
  {
    var d := "a..b";
    assert d[1..3] == "..";
    ContainsAt(d, "..", 1);
  }

  /** The fifth check is reachable: "192.168.0.1" passes the first four and
      is rejected as an address. */
  lemma AddressRejected()
    ensures Problem("192.168.0.1") == Some(LooksLikeIp)
  {
    var ip := "192.168.0.1";
    AddressPassesPattern();
    AddressHasNoDoubleDot();
    AddressIsFourRuns();
    assert IpPatternMatch(InputEnd, ip);
  }

  lemma AddressPassesPattern()
    ensures |"192.168.0.1"| == 11
    ensures NamePatternMatch(InputEnd, "192.168.0.1")
    ensures !StartsWith("192.168.0.1", "-") && !EndsWith("192.168.0.1", "-")
  {
    var ip := "192.168.0.1";
    assert NameBody(ip);
    assert ip[..1] == "1" && ip[10..] == "1";
  }

  lemma AddressHasNoDoubleDot()
    ensures !Contains("192.168.0.1", "..")
  {
    NoDoubleDot("192.168.0.1");
  }

  lemma LastThreeRuns()
    ensures DigitRuns("168.0.1", 3)
  {
    assert DigitRuns("1", 1);
    assert RunTail(".1", 2);
    assert DigitRuns("0.1", 2);
    assert RunTail(".0.1", 3);
    assert RunTail("8.0.1", 3);
    assert RunTail("68.0.1", 3);
  }

  lemma AddressIsFourRuns()
    ensures DigitRuns("192.168.0.1", 4)
  {
    var ip := "192.168.0.1";
    LastThreeRuns();
    assert RunTail(".168.0.1", 4);
    assert RunTail("2.168.0.1", 4);
    assert RunTail("92.168.0.1", 4);
    assert DigitRuns(ip, 4);
  }

  /** On a name with no line terminator in it the code and the intent agree. */
  lemma AgreeWithoutTerminators(name: string)
    requires forall i :: 0 <= i < |name| ==> !LineTerminator(name[i])
    ensures ProblemAsWritten(name) == Problem(name)
  {
  }

  /** As written, a line terminator after any otherwise acceptable name of
      at most 62 characters is accepted: `$` matches before it. */
  lemma {:induction false} TrailingTerminatorAccepted(name: string, t: char)
    requires Problem(name).None? && |name| <= 62 && LineTerminator(t)
    ensures ProblemAsWritten(name + [t]).None?
    ensures Problem(name + [t]) == Some(BadCharacters)
  {
    var s := name + [t];
    AcceptedIff(name);
    assert s[..|s| - 1] == name;
    assert DollarAt(IcuEnd, s, |s| - 1);
    assert NamePatternMatch(IcuEnd, s);
    assert !Contains(s, "..") by {
      ContainsAppendFree(name, t, "..");
    }
    assert !StartsWith(s, "-") by {
      assert s[..1][0] == name[0];
    }
    assert !EndsWith(s, "-") by {
      assert s[|s| - 1..][0] == t;
    }
    assert !IpPatternMatch(IcuEnd, s) by {
      DigitRunsChars(s, 4);
      assert s[|s| - 1] == t;
      assert s[|s| - 2] == name[|name| - 1];
    }
    assert !NameBody(s) by {
      assert s[|s| - 1] == t;
    }
    if NameBody(s[..|s| - 2]) {
      assert s[|s| - 2] == name[|name| - 1];
    }
  }

  /** The smallest instance: "abc" followed by a newline. */
  lemma NewlineNameAcceptedAsWritten()
    ensures ProblemAsWritten("abc\n").None?
    ensures Problem("abc\n") == Some(BadCharacters)
  {
    assert Problem("abc").None? by {
      assert !Contains("abc", "..") by {
        assert "abc"[1..][1..] == "c";
        ShorterNotContained("c", "..");
      }
      assert !DigitRuns("abc", 4);
    }
    assert "abc" + ['\n'] == "abc\n";
    TrailingTerminatorAccepted("abc", '\n');
  }

  /** The create-bucket sheet's name field and its validation state. */
  class CreateBucketForm {
    var bucketName: string
    var isNameValid: bool
    var validationMessage: string

    constructor (bucketName: string)
      ensures this.bucketName == bucketName && isNameValid && validationMessage == ""
    {
      this.bucketName := bucketName;
      isNameValid := true;
      validationMessage := "";
    }

    /** Clears the result, then stops at the first failing check with its
      message; a name that passes every check is valid with no message. The
      patterns match as ICU matches them, so a name ending in one line
      terminator can pass; on names without terminators the verdict is the
      intended one. */
    method ValidateBucketName()
      modifies this`isNameValid, this`validationMessage
      ensures isNameValid <==> ProblemAsWritten(bucketName).None?
      ensures validationMessage ==
        if ProblemAsWritten(bucketName).Some? then Message(ProblemAsWritten(bucketName).value) else ""
      ensures (forall i :: 0 <= i < |bucketName| ==> !LineTerminator(bucketName[i])) ==>
        (isNameValid <==> Problem(bucketName).None?)
    {
      if forall i :: 0 <= i < |bucketName| ==> !LineTerminator(bucketName[i]) {
        AgreeWithoutTerminators(bucketName);
      }
      validationMessage := "";
      isNameValid := true;
      if bucketName == "" {
        validationMessage := Message(EmptyName);
        isNameValid := false;
        return;
      }
      if |bucketName| < 3 || |bucketName| > 63 {
        validationMessage := Message(BadLength);
        isNameValid := false;
        return;
      }
      if !NamePatternMatch(IcuEnd, bucketName) {
        validationMessage := Message(BadCharacters);
        isNameValid := false;
        return;
      }
      if Contains(bucketName, "..") || StartsWith(bucketName, "-") || EndsWith(bucketName, "-") {
        validationMessage := Message(DotsOrHyphen);
        isNameValid := false;
        return;
      }
      if IpPatternMatch(IcuEnd, bucketName) {
        validationMessage := Message(LooksLikeIp);
        isNameValid := false;
        return;
      }
    }
  }
}
