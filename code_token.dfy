/**
 * The authentication token scraped from the gateway's reply with the
 * pattern `.*code=(\w+)`, matched the way a backtracking regex engine does:
 * start positions are tried left to right, `.*` (which never crosses a
 * newline) is greedy, and `\w+` takes the longest run of word characters.
 * Word characters are restricted to ASCII letters, digits and `_`.
 */
module CodeToken {
  import opened Wrappers

  predicate IsWordChar(c: char)
  {
    ('a' <= c <= 'z') || ('A' <= c <= 'Z') || ('0' <= c <= '9') || c == '_'
  }

  const Marker: string := "code="

  /** `code=` starts at `p` and is followed by at least one word character. */
  predicate OccursAt(s: string, p: nat)
  {
    p + |Marker| < |s| && s[p..p + |Marker|] == Marker && IsWordChar(s[p + |Marker|])
  }

  /** No newline in `s[i..j]`: the two positions are on the same line. */
  predicate NoNewline(s: string, i: nat, j: nat)
    requires i <= j <= |s|
  {
    forall k :: i <= k < j ==> s[k] != '\n'
  }

  /** How far `.*` can reach from `i`: the next newline, or the end of the input. */
  function LineEnd(s: string, i: nat): (e: nat)
    requires i <= |s|
    ensures i <= e <= |s| && NoNewline(s, i, e)
    ensures e == |s| || s[e] == '\n'
    decreases |s| - i
  {
    if i == |s| || s[i] == '\n' then i else LineEnd(s, i + 1)
  }

  /** Greedy `.*` from `start`: try `code=\w` at `e`, then `e - 1`, ... back to `start`. */
  function LastOccurrence(s: string, start: nat, e: nat): (r: Option<nat>)
    requires start <= e <= |s|
    ensures r.Some? ==> start <= r.value <= e && OccursAt(s, r.value)
    ensures r.Some? ==> forall q :: r.value < q <= e ==> !OccursAt(s, q)
    ensures r.None? ==> forall q :: start <= q <= e ==> !OccursAt(s, q)
    decreases e - start
  {
    if OccursAt(s, e) then Some(e)
    else if e == start then None
    else LastOccurrence(s, start, e - 1)
  }

  /** The scan for a match from start position `start` onwards; the result is where `code=` matched. */
  function MatchFrom(s: string, start: nat): (r: Option<nat>)
    requires start <= |s|
    ensures r.Some? ==> start <= r.value && OccursAt(s, r.value)
    ensures r.Some? ==> forall q :: start <= q < r.value && OccursAt(s, q) ==> NoNewline(s, q, r.value)
    ensures r.Some? ==> forall q :: r.value < q < |s| && OccursAt(s, q) ==> !NoNewline(s, r.value, q)
    ensures r.None? ==> forall q :: start <= q < |s| ==> !OccursAt(s, q)
    decreases |s| - start
  {
    var e := LineEnd(s, start);
    match LastOccurrence(s, start, e)
    case Some(p) => Some(p)
    case None =>
      if start == |s| then None else MatchFrom(s, start + 1)
  }

  /** End of the longest run of word characters starting at `i`. */
  function WordRunEnd(s: string, i: nat): (j: nat)
    requires i <= |s|
    ensures i <= j <= |s|
    ensures forall k :: i <= k < j ==> IsWordChar(s[k])
    ensures j == |s| || !IsWordChar(s[j])
    decreases |s| - i
  {
    if i < |s| && IsWordChar(s[i]) then WordRunEnd(s, i + 1) else i
  }

  /** Group 1 of the first match of `.*code=(\w+)` in `body`, if there is a match. */
  function ExtractToken(body: string): (r: Option<string>)
    ensures r.Some? ==> |r.value| > 0 && forall i :: 0 <= i < |r.value| ==> IsWordChar(r.value[i])
  {
    match MatchFrom(body, 0)
    case Some(p) => Some(body[p + |Marker|..WordRunEnd(body, p + |Marker|)])
    case None => None
  }

  /** A token is found exactly when `code=` followed by a word character occurs somewhere. */
  lemma TokenFoundIff(body: string)
    ensures ExtractToken(body).Some? <==> exists p :: OccursAt(body, p)
  {
    var m := MatchFrom(body, 0);
    if m.Some? {
      assert OccursAt(body, m.value);
    }
  }

  /**
   * Where the token comes from: the maximal word run after the LAST `code=`
   * of the FIRST line that has one. Every earlier occurrence is on the same
   * line; every later occurrence is on a later line.
   */
  lemma TokenPosition(body: string) returns (p: nat)
    requires ExtractToken(body).Some?
    ensures OccursAt(body, p)
    ensures var t := ExtractToken(body).value;
      var start := p + |Marker|;
      && start + |t| <= |body|
      && t == body[start..start + |t|]
      && (start + |t| == |body| || !IsWordChar(body[start + |t|]))
    ensures forall q: nat :: q < p && OccursAt(body, q) ==> NoNewline(body, q, p)
    ensures forall q :: p < q < |body| && OccursAt(body, q) ==> !NoNewline(body, p, q)
  {
    p := MatchFrom(body, 0).value;
  }

  /** The last `code=` of the first line wins. */
  lemma TokenExample()
    ensures ExtractToken("code=a code=b") == Some("b")
  {
    var s := "code=a code=b";
    assert NoNewline(s, 0, |s|) by {
      assert '\n' !in s;
      forall k | 0 <= k < |s| ensures s[k] != '\n' {
        assert s[k] in s;
      }
    }
    assert s[7..12] == Marker;
    assert OccursAt(s, 7);
    var p := TokenPosition(s);
    assert p == 7;
    assert WordRunEnd(s, 12) == 13;
    assert s[12..13] == "b";
  }
}
