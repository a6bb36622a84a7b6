/** Error values of the Growatt API client and the predicates that classify
    them (pkg/growatt/errors.go). */
module Errors {
  import opened Wrappers
  import opened GoStrings

  /** An error reported by the Growatt API: its numeric code and message. */
  datatype APIError = APIError(Code: int, Message: string)

  /** A Go `error` value as far as the classifiers can tell: no error, an
      `*APIError`, some other error, or an error wrapping another one (what
      `fmt.Errorf` with `%w` builds and `errors.Unwrap` takes apart). */
  datatype Error =
    | Nil
    | Api(api: APIError)
    | Other(Text: string)
    | Wrapped(Context: string, Inner: Error)

  const PermissionDeniedCode: int := 10011
  const PlantNotFoundCode: int := 10012

  const ErrPermissionDenied: APIError := APIError(10011, "permission denied")
  const ErrPlantNotFound: APIError := APIError(10012, "plant not found")
  const ErrFrequentAccess: APIError := APIError(10012, "frequently access (rate limited)")
  const ErrInvalidToken: APIError := APIError(10011, "invalid token")

  const ErrorPrefix: string := "growatt api error "

  /** NewAPIError */
  function NewAPIError(code: int, message: string): (e: APIError)
    ensures e.Code == code && e.Message == message
  {
    APIError(code, message)
  }

  /** (*APIError).Error: fmt.Sprintf("growatt api error %d: %s", Code, Message). */
  function ErrorString(e: APIError): string
  {
    ErrorPrefix + Itoa(e.Code) + ": " + e.Message
  }

  /** The errors met by repeatedly unwrapping `err`, starting with `err` itself. */
  function Chain(err: Error): (c: seq<Error>)
    ensures |c| >= 1 && c[0] == err
  {
    match err
    case Wrapped(_, inner) => [err] + Chain(inner)
    case _ => [err]
  }

  /** errors.As(err, &apiErr) for target type *APIError: the first APIError
      met while unwrapping, if there is one. */
  function AsApi(err: Error): Option<APIError>
  {
    match err
    case Api(a) => Some(a)
    case Wrapped(_, inner) => AsApi(inner)
    case _ => None
  }

  predicate IsPermissionDenied(err: Error)
  {
    match AsApi(err)
    case Some(a) => a.Code == PermissionDeniedCode
    case None => false
  }

  predicate IsRateLimited(err: Error)
  {
    match AsApi(err)
    case Some(a) =>
      a.Code == PlantNotFoundCode &&
      (a.Message == "error_frequently_access" || Contains(a.Message, "frequently"))
    case None => false
  }

  predicate IsPlantNotFound(err: Error)
  {
    match AsApi(err)
    case Some(a) => a.Code == PlantNotFoundCode && !IsRateLimited(err)
    case None => false
  }

  // ---------------------------------------------------------------------------
  // errors.As

  /** No error before position `k` of the chain is an APIError. */
  predicate NoApiBefore(ch: seq<Error>, k: int)
  {
    forall j :: 0 <= j < k && j < |ch| ==> !ch[j].Api?
  }

  /** When AsApi finds an APIError, it is the one at the returned position of
      the chain, and no earlier error is an APIError. */
  lemma {:induction false} AsApiPosition(err: Error) returns (k: nat)
    requires AsApi(err).Some?
    ensures k < |Chain(err)| && Chain(err)[k] == Api(AsApi(err).value)
    ensures NoApiBefore(Chain(err), k)
  {
    match err
    case Api(a) =>
      k := 0;
    case Wrapped(c, inner) =>
      var i := AsApiPosition(inner);
      k := i + 1;
      var ch := Chain(err);
      assert ch == [err] + Chain(inner);
      assert ch[k] == Chain(inner)[i];
      forall j | 0 <= j < k && j < |ch|
        ensures !ch[j].Api?
      {
        if j > 0 {
          assert ch[j] == Chain(inner)[j - 1];
        }
      }
  }

  /** When AsApi finds nothing, the chain holds no APIError at all. */
  lemma {:induction false} AsApiNoneMeansNoApi(err: Error)
    requires AsApi(err).None?
    ensures NoApiBefore(Chain(err), |Chain(err)|)
  {
    match err
    case Wrapped(c, inner) =>
      AsApiNoneMeansNoApi(inner);
      var ch := Chain(err);
      assert ch == [err] + Chain(inner);
      forall j | 0 <= j < |ch|
        ensures !ch[j].Api?
      {
        if j > 0 {
          assert ch[j] == Chain(inner)[j - 1];
        }
      }
    case _ =>
  }

  /** AsApi finds exactly the first APIError on the unwrap chain. */
  lemma AsApiIsFirstInChain(err: Error)
    ensures AsApi(err).Some? <==> exists k :: 0 <= k < |Chain(err)| && Chain(err)[k].Api?
    ensures AsApi(err).Some? ==>
      exists k :: 0 <= k < |Chain(err)| && Chain(err)[k] == Api(AsApi(err).value) &&
        NoApiBefore(Chain(err), k)
  {
    if AsApi(err).Some? {
      var k := AsApiPosition(err);
      assert Chain(err)[k].Api?;
    } else {
      AsApiNoneMeansNoApi(err);
    }
  }

  /** Wrapping an error does not change how it is classified. */
  lemma WrappingPreservesClass(context: string, err: Error)
    ensures IsPermissionDenied(Wrapped(context, err)) == IsPermissionDenied(err)
    ensures IsPlantNotFound(Wrapped(context, err)) == IsPlantNotFound(err)
    ensures IsRateLimited(Wrapped(context, err)) == IsRateLimited(err)
  {
  }

  /** An error chain without an APIError (nil, errors.New, ...) is never classified. */
  lemma NonApiErrorsUnclassified(err: Error)
    requires NoApiBefore(Chain(err), |Chain(err)|)
    ensures !IsPermissionDenied(err) && !IsPlantNotFound(err) && !IsRateLimited(err)
  {
    AsApiIsFirstInChain(err);
  }

  /** Position `k` of the chain holds the first APIError met while unwrapping. */
  ghost predicate FirstApiAt(ch: seq<Error>, k: int)
  {
    0 <= k < |ch| && ch[k].Api? && NoApiBefore(ch, k)
  }

  /** Whatever position holds the first APIError, AsApi returns that error. */
  lemma {:induction false} FirstApiAtIsAsApi(err: Error, k: int)
    requires FirstApiAt(Chain(err), k)
    ensures AsApi(err) == Some(Chain(err)[k].api)
  {
    if err.Wrapped? {
      var ch, inner := Chain(err), Chain(err.Inner);
      assert ch == [err] + inner;
      assert k >= 1 by {
        assert !ch[0].Api?;
      }
      forall j | 0 <= j < k - 1 && j < |inner|
        ensures !inner[j].Api?
      {
        assert inner[j] == ch[j + 1];
      }
      assert ch[k] == inner[k - 1];
      FirstApiAtIsAsApi(err.Inner, k - 1);
    }
  }

  /** errors.As succeeds exactly when the chain has a first APIError, and
      then yields it. */
  lemma FirstApiFound(err: Error)
    ensures AsApi(err).Some? <==> exists k :: FirstApiAt(Chain(err), k)
    ensures forall k :: FirstApiAt(Chain(err), k) ==> AsApi(err) == Some(Chain(err)[k].api)
  {
    if AsApi(err).Some? {
      var k := AsApiPosition(err);
      assert FirstApiAt(Chain(err), k);
      forall k' | FirstApiAt(Chain(err), k')
        ensures AsApi(err) == Some(Chain(err)[k'].api)
      {
        FirstApiAtIsAsApi(err, k');
      }
    } else {
      AsApiNoneMeansNoApi(err);
    }
  }

  /** The legacy message the rate-limit test also accepts mentions "frequently". */
  lemma LegacyRateLimitTextMentionsFrequently()
    ensures Contains("error_frequently_access", "frequently")
  {
    assert OccursAt("error_frequently_access", "frequently", 6);
  }

  /** IsPermissionDenied: the first APIError on the unwrap chain has code 10011. */
  lemma PermissionDeniedByChain(err: Error)
    ensures IsPermissionDenied(err) <==>
      exists k :: FirstApiAt(Chain(err), k) && Chain(err)[k].api.Code == PermissionDeniedCode
  {
    FirstApiFound(err);
  }

  /** IsRateLimited: the first APIError on the unwrap chain has code 10012 and
      a message containing "frequently" (the exact-match alternative is
      subsumed). */
  lemma RateLimitedByChain(err: Error)
    ensures IsRateLimited(err) <==>
      exists k :: FirstApiAt(Chain(err), k) && Chain(err)[k].api.Code == PlantNotFoundCode &&
        Contains(Chain(err)[k].api.Message, "frequently")
  {
    FirstApiFound(err);
    LegacyRateLimitTextMentionsFrequently();
  }

  /** IsPlantNotFound: the first APIError on the unwrap chain has code 10012
      and a message without "frequently". */
  lemma PlantNotFoundByChain(err: Error)
    ensures IsPlantNotFound(err) <==>
      exists k :: FirstApiAt(Chain(err), k) && Chain(err)[k].api.Code == PlantNotFoundCode &&
        !Contains(Chain(err)[k].api.Message, "frequently")
  {
    FirstApiFound(err);
    LegacyRateLimitTextMentionsFrequently();
  }

  // ---------------------------------------------------------------------------
  // Mutual exclusion

  /** Permission denied and plant not found need different codes. */
  lemma PermissionDeniedExcludesOthers(err: Error)
    ensures !(IsPermissionDenied(err) && IsPlantNotFound(err))
    ensures !(IsPermissionDenied(err) && IsRateLimited(err))
  {
  }

  /** Plant not found and rate limited never hold together, and for an
      APIError with code 10012 exactly one of them holds. */
  lemma PlantNotFoundXorRateLimited(err: Error)
    ensures !(IsPlantNotFound(err) && IsRateLimited(err))
    ensures AsApi(err).Some? && AsApi(err).value.Code == PlantNotFoundCode ==>
      IsPlantNotFound(err) != IsRateLimited(err)
  {
  }

  /** How each of the predefined errors is classified. */
  lemma PredefinedErrorsClassify()
    ensures IsPermissionDenied(Api(ErrPermissionDenied)) && IsPermissionDenied(Api(ErrInvalidToken))
    ensures IsPlantNotFound(Api(ErrPlantNotFound)) && !IsRateLimited(Api(ErrPlantNotFound))
    ensures IsRateLimited(Api(ErrFrequentAccess)) && !IsPlantNotFound(Api(ErrFrequentAccess))
  {
    FrequentAccessMentionsFrequently();
    PlantNotFoundOmitsFrequently();
  }

  lemma FrequentAccessMentionsFrequently()
    ensures Contains(ErrFrequentAccess.Message, "frequently")
  {
    assert OccursAt(ErrFrequentAccess.Message, "frequently", 0);
  }

  lemma PlantNotFoundOmitsFrequently()
    ensures !Contains(ErrPlantNotFound.Message, "frequently")
  {
    var m := ErrPlantNotFound.Message;
    forall i | 0 <= i <= |m| - 10
      ensures !OccursAt(m, "frequently", i)
    {
      assert m[i] != 'f';
      assert m[i..i + 10][0] == m[i];
    }
  }

  // ---------------------------------------------------------------------------
  // The error string

  lemma ItoaExample()
    ensures Itoa(10011) == "10011" && Itoa(10012) == "10012"
  {
    assert NatDigits(1) == "1";
    assert NatDigits(10) == "10";
    assert NatDigits(100) == "100";
    assert NatDigits(1001) == "1001";
  }

  /** An error with code 10011 reads "growatt api error 10011: " and then
      its message. */
  lemma ApiErrorStringExample(message: string)
    ensures ErrorString(NewAPIError(10011, message)) == "growatt api error 10011: " + message
  {
    ItoaExample();
  }

  /** An error with code 10012 reads "growatt api error 10012: " and then
      its message. */
  lemma PlantErrorStringExample(message: string)
    ensures ErrorString(NewAPIError(10012, message)) == "growatt api error 10012: " + message
  {
    ItoaExample();
  }

  /** The text of each predefined error: the prefix, its code, then its message. */
  lemma PredefinedErrorTexts()
    ensures ErrorString(ErrPermissionDenied) == "growatt api error 10011: " + ErrPermissionDenied.Message
    ensures ErrorString(ErrInvalidToken) == "growatt api error 10011: " + ErrInvalidToken.Message
    ensures ErrorString(ErrPlantNotFound) == "growatt api error 10012: " + ErrPlantNotFound.Message
    ensures ErrorString(ErrFrequentAccess) == "growatt api error 10012: " + ErrFrequentAccess.Message
  {
    ApiErrorStringExample(ErrPermissionDenied.Message);
    ApiErrorStringExample(ErrInvalidToken.Message);
    PlantErrorStringExample(ErrPlantNotFound.Message);
    PlantErrorStringExample(ErrFrequentAccess.Message);
  }

  /** Text cut at the first occurrence of a separator that the first part
      does not contain splits back into the same two parts. */
  lemma CutAtFirst(a: string, x: string, b: string, y: string, sep: char)
    requires sep !in a && sep !in b
    requires a + [sep] + x == b + [sep] + y
    ensures a == b && x == y
  {
    var s := a + [sep] + x;
    assert s[|a|] == sep && s[|b|] == sep;
    assert forall i :: 0 <= i < |a| ==> s[i] == a[i];
    assert forall i :: 0 <= i < |b| ==> s[i] == b[i];
    assert |a| == |b|;
    assert a == s[..|a|] && b == (b + [sep] + y)[..|b|];
    assert x == s[|a| + 1..] && y == (b + [sep] + y)[|b| + 1..];
  }

  /** Different numbers print differently. */
  lemma ItoaInjective(m: int, n: int)
    requires Itoa(m) == Itoa(n)
    ensures m == n
  {
    var s := Itoa(m);
    var am: nat, an: nat := if m < 0 then -m else m, if n < 0 then -n else n;
    NatDigitsValue(am);
    NatDigitsValue(an);
    var dm, dn := NatDigits(am), NatDigits(an);
    assert s == if m < 0 then "-" + dm else dm;
    assert s == if n < 0 then "-" + dn else dn;
    assert IsDigit(dm[0]) && IsDigit(dn[0]);
    assert (m < 0) == (s[0] == '-') == (n < 0);
    if m < 0 {
      assert dm == s[1..] == dn;
    }
    assert DigitsValue(dm) == DigitsValue(dn);
  }

  /** An error string is the fixed prefix and then the code and the message. */
  lemma ErrorStringAfterPrefix(e: APIError)
    ensures |ErrorString(e)| > |ErrorPrefix| && ErrorString(e)[..|ErrorPrefix|] == ErrorPrefix
    ensures ErrorString(e)[|ErrorPrefix|..] == Itoa(e.Code) + [':'] + ([' '] + e.Message)
  {
    var s := ErrorString(e);
    assert s == ErrorPrefix + (Itoa(e.Code) + [':'] + ([' '] + e.Message));
  }

  /** The error string determines the code and the message. */
  lemma ErrorStringInjective(e1: APIError, e2: APIError)
    requires ErrorString(e1) == ErrorString(e2)
    ensures e1 == e2
  {
    ErrorStringAfterPrefix(e1);
    ErrorStringAfterPrefix(e2);
    ItoaHasNoSeparators(e1.Code);
    ItoaHasNoSeparators(e2.Code);
    CutAtFirst(Itoa(e1.Code), [' '] + e1.Message, Itoa(e2.Code), [' '] + e2.Message, ':');
    ItoaInjective(e1.Code, e2.Code);
    assert e1.Message == ([' '] + e1.Message)[1..];
    assert e2.Message == ([' '] + e2.Message)[1..];
  }
}
