/** The subject filter of `handle.py`: a mail is an error report when one of
    a few keywords occurs in its subject, ignoring case. Letters are ASCII
    only: `str.lower` is modelled on `A`-`Z`. */
module Mail {
  import opened Builtins

  const Keywords: seq<string> := ["Exception", "NullPointerException", "error", "x"]

  /** Some keyword of `kws`, lower-cased, occurs in `text`. */
  function AnyKeywordIn(kws: seq<string>, text: string): (r: bool)
    ensures r <==> exists i :: 0 <= i < |kws| && OccursIn(Lower(kws[i]), text)
  {
    if kws == [] then false
    else Contains(text, Lower(kws[0])) || AnyKeywordIn(kws[1..], text)
  }

  /** `is_error_mail(subject)`. */
  function IsErrorMail(subject: string): (r: bool)
    ensures r <==> exists i :: 0 <= i < |Keywords| && OccursIn(Lower(Keywords[i]), Lower(subject))
  {
    AnyKeywordIn(Keywords, Lower(subject))
  }

  /** The two long keywords contain `x`, so only `x` and `error` decide. */
  lemma ErrorMailIffXOrError(subject: string)
    ensures IsErrorMail(subject) <==> OccursIn("x", Lower(subject)) || OccursIn("error", Lower(subject))
  {
    var t := Lower(subject);
    LowerKeywords();
    assert OccursAt("x", "exception", 1);
    assert OccursAt("x", "nullpointerexception", 12);
    if OccursIn("exception", t) {
      assert Contains(t, "exception") && Contains("exception", "x");
      ContainsTransitive(t, "exception", "x");
    }
    if OccursIn("nullpointerexception", t) {
      assert Contains(t, "nullpointerexception") && Contains("nullpointerexception", "x");
      ContainsTransitive(t, "nullpointerexception", "x");
    }
  }

  lemma LowerKeywords()
    ensures Lower(Keywords[0]) == "exception"
    ensures Lower(Keywords[1]) == "nullpointerexception"
    ensures Lower(Keywords[2]) == "error"
    ensures Lower(Keywords[3]) == "x"
  {
  }

  /** Any subject with an `x` or an `X` counts as an error mail. */
  lemma AnyXIsError(subject: string, i: nat)
    requires i < |subject| && subject[i] in "xX"
    ensures IsErrorMail(subject)
  {
    ErrorMailIffXOrError(subject);
    assert Lower(subject)[i..i + 1] == "x";
    assert OccursAt("x", Lower(subject), i);
  }

  /** The empty subject is not an error mail. */
  lemma EmptyIsNotError()
    ensures !IsErrorMail("")
  {
    ErrorMailIffXOrError("");
    assert Lower("") == "";
  }

  /** Two subjects that differ only in the case of their letters. */
  predicate SameUpToCase(s: string, t: string)
  {
    |s| == |t| && forall i :: 0 <= i < |s| ==> LowerChar(s[i]) == LowerChar(t[i])
  }

  /** Changing the case of letters does not change the verdict. */
  lemma CaseInsensitive(s: string, t: string)
    requires SameUpToCase(s, t)
    ensures IsErrorMail(s) == IsErrorMail(t)
  {
    assert Lower(s) == Lower(t);
  }

  /** A text that contains a text in which some keyword occurs contains
      that keyword too. */
  lemma AnyKeywordInMonotone(kws: seq<string>, a: string, b: string)
    requires OccursIn(a, b) && AnyKeywordIn(kws, a)
    ensures AnyKeywordIn(kws, b)
  {
    var i :| 0 <= i < |kws| && OccursIn(Lower(kws[i]), a);
    assert Contains(b, a) && Contains(a, Lower(kws[i]));
    ContainsTransitive(b, a, Lower(kws[i]));
  }

  /** A subject that contains an error mail's subject is an error mail too. */
  lemma ErrorMailMonotone(s: string, t: string)
    requires OccursIn(s, t) && IsErrorMail(s)
    ensures IsErrorMail(t)
  {
    var j :| OccursAt(s, t, j);
    LowerOccursAt(s, t, j);
    AnyKeywordInMonotone(Keywords, Lower(s), Lower(t));
  }
}
