/**
 The ids that dynamic/driver.py `forward_refs` makes up: `"{ref} | {path}"` for a bound input and
 `"{input} | rows"` for the op that decodes it. They are plain strings, so telling them apart
 from planner ids, and from each other, is a fact about where the separator occurs.
 */
module BoundIds {
  type Id = string

  const SEP := " | "
  const ROWS := " | rows"
  const ITEMS := "items."

  function InputId(ref: Id, path: string): Id {
    ref + SEP + path
  }

  function MaterializerId(ref: Id, path: string): Id {
    InputId(ref, path) + ROWS
  }

  ghost predicate SepAt(s: string, i: int) {
    0 <= i && i + 2 < |s| && s[i] == ' ' && s[i + 1] == '|' && s[i + 2] == ' '
  }

  /** The separator does not occur in `s`: what is assumed of op ids. */
  ghost predicate SepFree(s: string) {
    forall i :: !SepAt(s, i)
  }

  ghost predicate EndsWithRows(s: string) {
    |s| >= |ROWS| && s[|s| - |ROWS|..] == ROWS
  }

  /** A result path as planners write it; it must not look like a decoded input. */
  ghost predicate GoodPath(path: string) {
    ITEMS <= path && !EndsWithRows(path)
  }

  lemma InputIdHasSep(ref: Id, path: string)
    ensures SepAt(InputId(ref, path), |ref|)
    ensures SepAt(MaterializerId(ref, path), |ref|)
    ensures !SepFree(InputId(ref, path)) && !SepFree(MaterializerId(ref, path))
  {
    var s := InputId(ref, path);
    assert s[|ref|] == SEP[0] && s[|ref| + 1] == SEP[1] && s[|ref| + 2] == SEP[2];
    assert SepAt(s, |ref|);
    var t := MaterializerId(ref, path);
    assert t[|ref|] == s[|ref|] && t[|ref| + 1] == s[|ref| + 1] && t[|ref| + 2] == s[|ref| + 2];
    assert SepAt(t, |ref|);
  }

  /** The shorter of two separator-free heads cannot be a proper head of the longer. */
  lemma HeadsAlign(r: Id, p: string, q: Id, w: string)
    requires SepFree(q) && ITEMS <= p && InputId(r, p) == InputId(q, w)
    ensures |q| <= |r|
  {
    var s := InputId(r, p);
    InputIdHasSep(r, p);
    InputIdHasSep(q, w);
    assert s[..|q|] == q;
    assert s[|r| + 3] == p[0] == 'i';
    assert !SepAt(q, |r|);
  }

  /** A bound input id determines the reference it was made from. */
  lemma InputIdInjective(r: Id, p: string, q: Id, w: string)
    requires SepFree(r) && SepFree(q) && ITEMS <= p && ITEMS <= w
    requires InputId(r, p) == InputId(q, w)
    ensures r == q && p == w
  {
    HeadsAlign(r, p, q, w);
    HeadsAlign(q, w, r, p);
    var s, n := InputId(r, p), |r|;
    assert s[..n] == r && s[..n] == q;
    assert s[n + 3..] == p && s[n + 3..] == w;
  }

  /** A decoder is never mistaken for a bound input. */
  lemma MaterializerIsNoInput(r: Id, p: string, q: Id, w: string)
    requires SepFree(r) && SepFree(q) && ITEMS <= p && GoodPath(w)
    ensures MaterializerId(r, p) != InputId(q, w)
  {
    var longer := p + ROWS;
    assert MaterializerId(r, p) == InputId(r, longer);
    assert longer[|p|..] == ROWS;
    assert EndsWithRows(longer);
    if InputId(r, longer) == InputId(q, w) {
      InputIdInjective(r, longer, q, w);
    }
  }

  lemma MaterializerInjective(r: Id, p: string, q: Id, w: string)
    requires MaterializerId(r, p) == MaterializerId(q, w)
    ensures InputId(r, p) == InputId(q, w)
  {
    var s, t := MaterializerId(r, p), MaterializerId(q, w);
    assert s[..|s| - |ROWS|] == InputId(r, p) && t[..|t| - |ROWS|] == InputId(q, w);
  }

  /** Without the restriction on paths a decoder and a bound input can share an id. */
  lemma RowsPathCollides(r: Id, p: string)
    ensures MaterializerId(r, p) == InputId(r, p + ROWS) && EndsWithRows(p + ROWS)
  {
    assert (p + ROWS)[|p|..] == ROWS;
  }
}
