/**
 * `stripUUID` (`src_js/grndwork_api_client/utils.ts`): a falsy value becomes
 * `''`; otherwise the leftmost match of `_?\w{8}-\w{4}-\w{4}-\w{4}-\w{12}` is
 * removed (the expression is not global, so at most one match goes).
 */
module StripUuid {
  import opened Wrappers
  import opened Text

  /** Position `k` of the 36-character shape holds a dash. */
  predicate DashAt(k: int) {
    k == 8 || k == 13 || k == 18 || k == 23
  }

  /** `\w{8}-\w{4}-\w{4}-\w{4}-\w{12}`, exactly. */
  predicate UuidShape(t: string) {
    |t| == 36 && forall k :: 0 <= k < 36 ==> if DashAt(k) then t[k] == '-' else IsWordChar(t[k])
  }

  /**
   * The length of the match starting at `i`, if one does: `_?` is greedy, so
   * an underscore followed by the shape gives 37; failing that, the engine
   * backtracks and tries the shape at `i` itself.
   */
  function MatchAt(s: string, i: nat): (n: Option<nat>)
    ensures n.Some? ==> n.value == 36 || n.value == 37
    ensures n.Some? ==> i + n.value <= |s| && UuidShape(s[i + n.value - 36..i + n.value])
    ensures n == Some(37) ==> s[i] == '_'
    ensures n.None? ==> !(i + 36 <= |s| && UuidShape(s[i..i + 36]))
  {
    if i < |s| && s[i] == '_' && i + 37 <= |s| && UuidShape(s[i + 1..i + 37]) then Some(37)
    else if i + 36 <= |s| && UuidShape(s[i..i + 36]) then Some(36)
    else None
  }

  /** The leftmost match at or after `from`: its start and length. */
  function Leftmost(s: string, from: nat): (m: Option<(nat, nat)>)
    ensures m.Some? ==> from <= m.value.0 && MatchAt(s, m.value.0) == Some(m.value.1)
    ensures m.Some? ==> forall j :: from <= j < m.value.0 ==> MatchAt(s, j).None?
    ensures m.None? ==> forall j :: from <= j ==> MatchAt(s, j).None?
    decreases |s| - from
  {
    if from >= |s| then None
    else
      match MatchAt(s, from)
      case Some(n) => Some((from, n))
      case None => Leftmost(s, from + 1)
  }

  /** `stripUUID(value)`; `None` stands for `null` and `undefined`. */
  function StripUUID(value: Option<string>): (r: string)
    ensures value.None? || value == Some("") ==> r == ""
  {
    if value.None? || value.value == "" then ""
    else
      match Leftmost(value.value, 0)
      case None => value.value
      case Some((i, n)) => value.value[..i] + value.value[i + n..]
  }

  /**
   * A non-empty value with no match anywhere comes back unchanged, and only
   * such a value does: any match removes characters.
   */
  lemma UnchangedIffNoMatch(v: string)
    requires v != ""
    ensures StripUUID(Some(v)) == v <==> forall j :: 0 <= j ==> MatchAt(v, j).None?
  {
    var m := Leftmost(v, 0);
    if m.Some? {
      var (i, n) := m.value;
      assert |StripUUID(Some(v))| == |v| - n;
    }
  }

  /** Scanning from any start up to the first match finds that match. */
  lemma {:induction false} LeftmostFinds(v: string, from: nat, i: nat, n: nat)
    requires from <= i && MatchAt(v, i) == Some(n)
    requires forall k :: from <= k < i ==> MatchAt(v, k).None?
    ensures Leftmost(v, from) == Some((i, n))
    decreases i - from
  {
    if from < i {
      LeftmostFinds(v, from + 1, i, n);
    }
  }

  /**
   * With a match, exactly the leftmost one is removed: when the first match
   * starts at `i` and is `n` characters long, everything before it and after
   * it is kept in order and nothing else changes.
   */
  lemma RemovesLeftmost(v: string, i: nat, n: nat)
    requires MatchAt(v, i) == Some(n)
    requires forall k :: 0 <= k < i ==> MatchAt(v, k).None?
    ensures StripUUID(Some(v)) == v[..i] + v[i + n..]
    ensures |StripUUID(Some(v))| == |v| - n
  {
    LeftmostFinds(v, 0, i, n);
  }

  /** Every character of a match is a word character or a dash, so a match never spans a space or a dot. */
  lemma MatchChars(s: string, i: nat)
    requires MatchAt(s, i).Some?
    ensures forall k :: i <= k < i + MatchAt(s, i).value ==> s[k] == '-' || IsWordChar(s[k])
  {
    var n := MatchAt(s, i).value;
    var t := s[i + n - 36..i + n];
    forall k | i <= k < i + n ensures s[k] == '-' || IsWordChar(s[k]) {
      if k >= i + n - 36 {
        assert s[k] == t[k - (i + n - 36)];
      } else {
        assert s[k] == '_';
      }
    }
  }
}
