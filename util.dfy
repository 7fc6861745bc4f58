/** Status codes of the server and the heuristic that decides whether a
    failed request means the cached route is stale (src/util.rs). */
module Util {
  import opened Ints

  /** Server status codes, with their numeric discriminants. */
  datatype StatusCode = Ok | InvalidArgument | NotFound | TooManyRequests | InternalError
  {
    function AsU32(): (r: u32)
      ensures this.Ok? ==> r == 200
      ensures this.InvalidArgument? ==> r == 400
      ensures this.NotFound? ==> r == 404
      ensures this.TooManyRequests? ==> r == 429
      ensures this.InternalError? ==> r == 500
    {
      match this
      case Ok => 200
      case InvalidArgument => 400
      case NotFound => 404
      case TooManyRequests => 429
      case InternalError => 500
    }
  }

  predicate IsOk(code: u32) {
    code == StatusCode.Ok.AsU32()
  }

  /** `s` starts with `prefix`. */
  predicate StartsWith(s: string, prefix: string) {
    |prefix| <= |s| && s[..|prefix|] == prefix
  }

  /** Rust's `str::contains` for a string pattern: `sub` occurs in `s`. */
  predicate Contains(s: string, sub: string)
    decreases |s|
  {
    StartsWith(s, sub) || (s != [] && Contains(s[1..], sub))
  }

  /** A failed request should drop the cached route iff the server said
      "invalid argument" and the message mentions a missing table. */
  predicate ShouldRefresh(code: u32, msg: string) {
    && code == StatusCode.InvalidArgument.AsU32()
    && Contains(msg, "Table")
    && Contains(msg, "not found")
  }

  /** An occurrence of `sub` in `s` starting at position `i`. */
  ghost predicate OccursAt(s: string, sub: string, i: int) {
    0 <= i && i + |sub| <= |s| && s[i..i + |sub|] == sub
  }

  lemma {:induction false} ContainsIffOccurs(s: string, sub: string)
    ensures Contains(s, sub) <==> exists i :: OccursAt(s, sub, i)
    decreases |s|
  {
    if StartsWith(s, sub) {
      assert OccursAt(s, sub, 0);
    } else if s == [] {
      assert forall i :: !OccursAt(s, sub, i);
    } else {
      forall i | OccursAt(s, sub, i) && i > 0
        ensures OccursAt(s[1..], sub, i - 1)
      {
        assert s[1..][i - 1..i - 1 + |sub|] == s[i..i + |sub|];
      }
      forall i | OccursAt(s[1..], sub, i)
        ensures OccursAt(s, sub, i + 1)
      {
        assert s[1..][i..i + |sub|] == s[i + 1..i + 1 + |sub|];
      }
      ContainsIffOccurs(s[1..], sub);
    }
  }

  lemma OccursAtContains(s: string, sub: string, i: int)
    requires OccursAt(s, sub, i)
    ensures Contains(s, sub)
  {
    ContainsIffOccurs(s, sub);
  }

  /** A string none of whose characters starts the pattern does not contain it. */
  lemma {:induction false} NotContainsWithoutFirstChar(s: string, sub: string)
    requires sub != []
    requires forall k :: 0 <= k < |s| ==> s[k] != sub[0]
    ensures !Contains(s, sub)
    decreases |s|
  {
    if s != [] {
      assert s[0] != sub[0];
      NotContainsWithoutFirstChar(s[1..], sub);
    }
  }

  lemma IsOkIff(code: u32)
    ensures IsOk(code) <==> code == 200
  {
  }

  /** Both substrings may occur anywhere in the message and in either order. */
  lemma {:induction false} ShouldRefreshIff(code: u32, msg: string)
    ensures ShouldRefresh(code, msg) <==>
      code == 400 && (exists i :: OccursAt(msg, "Table", i)) && (exists j :: OccursAt(msg, "not found", j))
  {
    ContainsIffOccurs(msg, "Table");
    ContainsIffOccurs(msg, "not found");
  }

  /** Any code other than InvalidArgument never triggers a refresh. */
  lemma ShouldRefreshNeedsInvalidArgument(code: u32, msg: string)
    requires code != 400
    ensures !ShouldRefresh(code, msg)
  {
  }

  /** The match is case-sensitive: a lower-case "table" does not count. */
  lemma ShouldRefreshIsCaseSensitive()
    ensures !ShouldRefresh(400, "table not found")
  {
    NotContainsWithoutFirstChar("table not found", "Table");
  }

  /** The two stale-route examples: a missing table is refreshed, in either
      order of the two phrases, and an internal error is not. */
  lemma ShouldRefreshExamples()
    ensures ShouldRefresh(400, "Table 'B' not found")
    ensures ShouldRefresh(400, "not found: Table 'B'")
    ensures !ShouldRefresh(500, "Table 'B' not found")
  {
    var m1 := "Table 'B' not found";
    assert m1[10..19] == "not found";
    OccursAtContains(m1, "not found", 10);
    assert m1[0..5] == "Table";
    OccursAtContains(m1, "Table", 0);
    var m2 := "not found: Table 'B'";
    assert m2[11..16] == "Table";
    OccursAtContains(m2, "Table", 11);
    assert m2[0..9] == "not found";
    OccursAtContains(m2, "not found", 0);
  }
}
