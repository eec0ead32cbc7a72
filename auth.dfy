/** The optional bearer-token check in front of the render routes: a
    request passes, is answered with 401, or makes the check throw. */
module Auth {
  import opened Wrappers
  import opened Text

  /** `next()`, a 401 response, or a throw that the application's error
      handler answers with 500 (backend/server.js:103-108). */
  datatype Verdict = Next | Unauthorized | ServerError

  /** What the query parser makes of `token`: a string, or an array or
      object (`?token=a&token=b`, `?token[k]=v`), which has no `replace`. */
  datatype Param = Plain(text: string) | Structured

  const BearerPrefix: string := "Bearer "

  /** `header || query`: the `authorization` header when it is present and
      non-empty, otherwise the `token` query parameter, whatever it is. */
  function PresentedToken(header: Option<string>, query: Option<Param>): (t: Option<Param>)
    ensures t == query || (header.Some? && t == Some(Plain(header.value)))
    ensures t != query ==> header.Some? && header.value != ""
    ensures header.Some? && header.value != "" ==> t == Some(Plain(header.value))
  {
    if header.Some? && header.value != "" then Some(Plain(header.value)) else query
  }

  /** `token?.replace('Bearer ', '')` on a string: the first occurrence is
      removed, wherever it stands. */
  function StripBearer(token: string): (r: string)
    ensures !Contains(token, BearerPrefix) ==> r == token
    ensures Contains(token, BearerPrefix) ==> |r| == |token| - |BearerPrefix|
  {
    ReplaceFirst(token, BearerPrefix, "")
  }

  /** The middleware's decision; `expected` is the configured AUTH_TOKEN.
      A missing token strips to `undefined`, which never equals it; an
      array or object throws at `replace`. */
  function Authorize(header: Option<string>, query: Option<Param>, expected: Option<string>): (v: Verdict)
    ensures v == Next <==>
              || expected.None? || expected.value == ""
              || (PresentedToken(header, query).Some? && PresentedToken(header, query).value.Plain?
                  && StripBearer(PresentedToken(header, query).value.text) == expected.value)
    ensures v == ServerError <==>
              expected.Some? && expected.value != "" && PresentedToken(header, query) == Some(Structured)
  {
    if expected.None? || expected.value == "" then Next
    else
      match PresentedToken(header, query)
      case None => Unauthorized
      case Some(Structured) => ServerError
      case Some(Plain(token)) => if StripBearer(token) == expected.value then Next else Unauthorized
  }

  /** With no token configured every request passes. */
  lemma OpenWithoutExpectedToken(header: Option<string>, query: Option<Param>, expected: Option<string>)
    requires expected.None? || expected.value == ""
    ensures Authorize(header, query, expected) == Next
  {
  }

  /** A non-empty header decides alone: the query parameter is then ignored. */
  lemma HeaderTakesPrecedence(header: string, q1: Option<Param>, q2: Option<Param>, expected: Option<string>)
    requires header != ""
    ensures Authorize(Some(header), q1, expected) == Authorize(Some(header), q2, expected)
    ensures Authorize(Some(header), q1, expected) != ServerError
  {
  }

  /** An absent or empty header falls back to the query parameter. */
  lemma QueryWhenHeaderEmpty(query: Option<Param>, expected: Option<string>)
    ensures Authorize(None, query, expected) == Authorize(Some(""), query, expected)
    ensures expected.Some? && expected.value != "" && query.Some? && query.value.Plain? ==>
              (Authorize(None, query, expected) == Next <==> StripBearer(query.value.text) == expected.value)
  {
  }

  /** With a token configured and no header, a repeated or bracketed
      `token` parameter makes the check throw: the request gets 500, not
      401. */
  lemma StructuredQueryThrows(header: Option<string>, expected: string)
    requires expected != ""
    requires header.None? || header.value == ""
    ensures Authorize(header, Some(Structured), Some(expected)) == ServerError
  {
  }

  /** With a token configured, a request that presents none is refused. */
  lemma MissingTokenRejected(expected: string)
    requires expected != ""
    ensures Authorize(None, None, Some(expected)) == Unauthorized
    ensures Authorize(Some(""), None, Some(expected)) == Unauthorized
  {
  }

  /** No occurrence of "Bearer " can straddle the end of a string that does
      not contain one, because 'B' appears in the prefix only at its start. */
  lemma {:induction false} NoStraddle(a: string, b: string, j: nat)
    requires !Contains(a, BearerPrefix)
    requires j < |a|
    ensures !OccursAt(a + BearerPrefix + b, BearerPrefix, j)
  {
    var s := a + BearerPrefix + b;
    if j + |BearerPrefix| <= |a| {
      assert s[j..j + |BearerPrefix|] == a[j..j + |BearerPrefix|];
      assert !OccursAt(a, BearerPrefix, j);
    } else if j + |BearerPrefix| <= |s| {
      var d := |a| - j;
      assert s[j..j + |BearerPrefix|][d] == s[|a|] == 'B';
      assert BearerPrefix[d] != 'B';
    }
  }

  /** In a + "Bearer " + b with no prefix in a, the first prefix stands
      right after a. */
  lemma FirstPrefixAfter(a: string, b: string)
    requires !Contains(a, BearerPrefix)
    ensures IndexOf(a + BearerPrefix + b, BearerPrefix) == Some(|a|)
  {
    var s := a + BearerPrefix + b;
    assert s[|a|..|a| + |BearerPrefix|] == BearerPrefix;
    assert OccursAt(s, BearerPrefix, |a|);
    forall j: nat | j < |a| ensures !OccursAt(s, BearerPrefix, j) {
      NoStraddle(a, b, j);
    }
  }

  lemma SplitAround<T>(a: seq<T>, m: seq<T>, b: seq<T>)
    ensures (a + m + b)[..|a|] == a && (a + m + b)[|a| + |m|..] == b
  {
  }

  /** The prefix is removed where it first occurs, even in mid-token, and
      later occurrences are kept. */
  lemma StripFirstOccurrence(a: string, b: string)
    requires !Contains(a, BearerPrefix)
    ensures StripBearer(a + BearerPrefix + b) == a + b
  {
    var s := a + BearerPrefix + b;
    FirstPrefixAfter(a, b);
    ReplaceFirstAt(s, BearerPrefix, "", |a|);
    SplitAround(a, BearerPrefix, b);
  }

  /** "Bearer T" is accepted for the configured token T, from the header or
      the query parameter alike. */
  lemma BearerFormAccepted(t: string, query: Option<Param>)
    requires t != ""
    ensures Authorize(Some(BearerPrefix + t), query, Some(t)) == Next
    ensures Authorize(None, Some(Plain(BearerPrefix + t)), Some(t)) == Next
  {
    assert !Contains([], BearerPrefix);
    StripFirstOccurrence([], t);
    assert [] + BearerPrefix + t == BearerPrefix + t;
  }

  /** The bare token T is accepted exactly when T itself does not contain
      "Bearer ": otherwise the replace mangles it. */
  lemma BareFormAccepted(t: string, query: Option<Param>)
    requires t != ""
    ensures Authorize(Some(t), query, Some(t)) == Next <==> !Contains(t, BearerPrefix)
  {
  }

  /** A presented token that differs from the configured one after the
      strip is refused. */
  lemma MismatchRejected(header: Option<string>, query: Option<Param>, expected: string)
    requires expected != ""
    requires PresentedToken(header, query).Some? && PresentedToken(header, query).value.Plain?
    requires StripBearer(PresentedToken(header, query).value.text) != expected
    ensures Authorize(header, query, Some(expected)) == Unauthorized
  {
  }
}
