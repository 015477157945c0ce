/** The password-strength meter shared by the registration wizard and the
    profile page: five criteria are counted and the count is mapped to a stage
    from 0 (nothing typed) to 3 (every criterion met). */
module PasswordStrength {
  import opened JsValues

  type StageValue = s: nat | s <= 3

  /** The characters of the class `[@$!%*?&]`. */
  const SpecialChars: string := "@$!%*?&"

  /** `/[A-Z]/.test(s)` */
  predicate HasUppercase(s: string)
  {
    exists i | 0 <= i < |s| :: 'A' <= s[i] <= 'Z'
  }

  /** `/[a-z]/.test(s)` */
  predicate HasLowercase(s: string)
  {
    exists i | 0 <= i < |s| :: 'a' <= s[i] <= 'z'
  }

  /** `/\d/.test(s)`; `\d` is the ASCII digits only. */
  predicate HasNumber(s: string)
  {
    exists i | 0 <= i < |s| :: '0' <= s[i] <= '9'
  }

  /** `/[@$!%*?&]/.test(s)` */
  predicate HasSpecialChar(s: string)
  {
    exists i | 0 <= i < |s| :: s[i] in SpecialChars
  }

  /** The four character classes, said of the characters themselves: each
      criterion holds iff some character of the password is in its class. */
  lemma CriteriaByCharacter(s: string)
    ensures HasLowercase(s) <==> exists c | c in s :: 'a' <= c <= 'z'
    ensures HasUppercase(s) <==> exists c | c in s :: 'A' <= c <= 'Z'
    ensures HasNumber(s) <==> exists c | c in s :: '0' <= c <= '9'
    ensures HasSpecialChar(s) <==> exists c | c in s :: c in SpecialChars
  {
    forall c | c in s ensures exists i | 0 <= i < |s| :: s[i] == c {
      var i :| 0 <= i < |s| && s[i] == c;
    }
    forall i | 0 <= i < |s| ensures s[i] in s { }
  }

  /** `pass.length >= 8`, in UTF-16 code units as JavaScript counts them. */
  predicate LongEnough(pass: string)
  {
    JsLength(pass) >= 8
  }

  /** The five criteria, in the order the components list them. */
  function Criteria(pass: string): seq<bool>
  {
    [HasLowercase(pass), HasUppercase(pass), HasNumber(pass), HasSpecialChar(pass), LongEnough(pass)]
  }

  predicate AllCriteria(pass: string)
  {
    HasLowercase(pass) && HasUppercase(pass) && HasNumber(pass) && HasSpecialChar(pass) && LongEnough(pass)
  }

  /** 1 for a criterion that holds, 0 for one that does not. */
  function Indicator(b: bool): nat
  {
    if b then 1 else 0
  }

  /** `bs.filter(Boolean).length` */
  function CountTrue(bs: seq<bool>): (n: nat)
    ensures n <= |bs|
    ensures n == |bs| <==> forall i | 0 <= i < |bs| :: bs[i]
    ensures n == 0 <==> forall i | 0 <= i < |bs| :: !bs[i]
  {
    if bs == [] then 0 else Indicator(bs[0]) + CountTrue(bs[1..])
  }

  /** Counting adds up over concatenation, so with `CountTrue([b]) ==
      Indicator(b)` it is the number of true entries. */
  lemma {:induction false} CountTrueAppend(a: seq<bool>, b: seq<bool>)
    ensures CountTrue(a + b) == CountTrue(a) + CountTrue(b)
  {
    if a == [] {
      assert a + b == b;
    } else {
      CountTrueAppend(a[1..], b);
      assert (a + b)[1..] == a[1..] + b;
    }
  }

  /** The number of criteria the password meets. */
  function Score(pass: string): (n: nat)
    ensures n == Indicator(HasLowercase(pass)) + Indicator(HasUppercase(pass)) + Indicator(HasNumber(pass))
               + Indicator(HasSpecialChar(pass)) + Indicator(LongEnough(pass))
    ensures n <= 5
    ensures n == 5 <==> AllCriteria(pass)
  {
    var c := Criteria(pass);
    assert CountTrue(c[4..]) == Indicator(c[4]) by {
      assert c[4..][1..] == [];
    }
    assert CountTrue(c[3..]) == Indicator(c[3]) + CountTrue(c[4..]) by {
      assert c[3..][1..] == c[4..];
    }
    assert CountTrue(c[2..]) == Indicator(c[2]) + CountTrue(c[3..]) by {
      assert c[2..][1..] == c[3..];
    }
    assert CountTrue(c[1..]) == Indicator(c[1]) + CountTrue(c[2..]) by {
      assert c[1..][1..] == c[2..];
    }
    CountTrue(c)
  }

  /** The stage `onPasswordInput` stores: 0 for an empty password, otherwise
      1 for a score of at most two, 2 for three or four, 3 for all five. */
  function Stage(pass: string): (r: StageValue)
    ensures r == 0 <==> pass == ""
    ensures pass != "" ==> (r == 1 <==> Score(pass) <= 2) && (r == 2 <==> 3 <= Score(pass) <= 4)
    ensures r == 3 <==> AllCriteria(pass)
    ensures r == 3 ==> JsLength(pass) >= 8
  {
    if pass == "" then 0
    else
      var score := Score(pass);
      if score <= 2 then 1 else if score == 3 || score == 4 then 2 else 3
  }

  /** The length criterion counts UTF-16 code units: two lowercase-free
      emoji bring a six-character password to the length of eight, so it
      reaches the top stage. */
  lemma AstralCharactersCountTwice()
    ensures Stage("Aa1@\U{1F600}\U{1F600}") == 3
    ensures |"Aa1@\U{1F600}\U{1F600}"| == 6
  {
    var p := "Aa1@\U{1F600}\U{1F600}";
    assert 'a' <= p[1] <= 'z';
    assert 'A' <= p[0] <= 'Z';
    assert '0' <= p[2] <= '9';
    assert p[3] in SpecialChars;
    assert JsLength(p) == 8 by {
      assert p[1..][1..][1..][1..][1..][1..] == [];
    }
  }

  /** Counting is monotone: more true entries never give a smaller count. */
  lemma {:induction false} CountTrueMonotone(a: seq<bool>, b: seq<bool>)
    requires |a| == |b|
    requires forall i | 0 <= i < |a| :: a[i] ==> b[i]
    ensures CountTrue(a) <= CountTrue(b)
  {
    if a != [] {
      CountTrueMonotone(a[1..], b[1..]);
    }
  }

  /** Typing more characters never lowers the stage: every criterion that
      holds of a password still holds once text is appended to it. */
  lemma StageMonotone(pass: string, more: string)
    ensures Stage(pass) <= Stage(pass + more)
  {
    var longer := pass + more;
    if pass != "" {
      forall i | 0 <= i < |pass| ensures longer[i] == pass[i] { }
      JsLengthAppend(pass, more);
      var a, b := Criteria(pass), Criteria(longer);
      forall i | 0 <= i < 5 ensures a[i] ==> b[i] {
        if i == 0 && a[0] {
          var k :| 0 <= k < |pass| && 'a' <= pass[k] <= 'z';
          assert longer[k] == pass[k];
        } else if i == 1 && a[1] {
          var k :| 0 <= k < |pass| && 'A' <= pass[k] <= 'Z';
          assert longer[k] == pass[k];
        } else if i == 2 && a[2] {
          var k :| 0 <= k < |pass| && '0' <= pass[k] <= '9';
          assert longer[k] == pass[k];
        } else if i == 3 && a[3] {
          var k :| 0 <= k < |pass| && pass[k] in SpecialChars;
          assert longer[k] == pass[k];
        }
      }
      CountTrueMonotone(a, b);
    }
  }
}
