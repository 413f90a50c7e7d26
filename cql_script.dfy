/**
 * Splitting a CQL script into statements: `cql.split(/;[\r\n]+/)`.
 *
 * The script is cut at every `;` immediately followed by one or more CR/LF characters;
 * the cut removes the `;` and the whole run of line breaks. `Split` gives the pieces and
 * `Separators` the text removed between consecutive pieces; `Join` puts them back.
 */
module CqlScript {

  predicate IsLineBreak(c: char) { c == '\r' || c == '\n' }

  /** A statement terminator starts at index `i`: a `;` followed by a line break. */
  predicate TerminatorAt(s: string, i: int) {
    0 <= i && i + 1 < |s| && s[i] == ';' && IsLineBreak(s[i + 1])
  }

  predicate NoTerminator(s: string) { forall i :: 0 <= i < |s| ==> !TerminatorAt(s, i) }

  /** The leftmost terminator at or after `i`, or `|s|` when there is none. */
  function FirstTerminator(s: string, i: nat): (k: nat)
    requires i <= |s|
    ensures i <= k <= |s|
    ensures forall j :: i <= j < k ==> !TerminatorAt(s, j)
    ensures k < |s| ==> TerminatorAt(s, k)
    decreases |s| - i
  {
    if i == |s| then i
    else if TerminatorAt(s, i) then i
    else FirstTerminator(s, i + 1)
  }

  /** The end of the run of line breaks starting at `i` (the regex's greedy `[\r\n]+`). */
  function BreakRunEnd(s: string, i: nat): (e: nat)
    requires i <= |s|
    ensures i <= e <= |s|
    ensures forall j :: i <= j < e ==> IsLineBreak(s[j])
    ensures e < |s| ==> !IsLineBreak(s[e])
    decreases |s| - i
  {
    if i < |s| && IsLineBreak(s[i]) then BreakRunEnd(s, i + 1) else i
  }

  /** The statements of a script, in order. */
  function Split(s: string): (pieces: seq<string>)
    ensures |pieces| >= 1
    decreases |s|
  {
    var k := FirstTerminator(s, 0);
    if k == |s| then [s]
    else [s[..k]] + Split(s[BreakRunEnd(s, k + 1)..])
  }

  /** The text removed at each cut: a `;` and the run of line breaks after it. */
  function Separators(s: string): (seps: seq<string>)
    decreases |s|
  {
    var k := FirstTerminator(s, 0);
    if k == |s| then []
    else [s[k..BreakRunEnd(s, k + 1)]] + Separators(s[BreakRunEnd(s, k + 1)..])
  }

  function Join(pieces: seq<string>, seps: seq<string>): string
    requires |pieces| == |seps| + 1
    decreases |seps|
  {
    if |seps| == 0 then pieces[0]
    else pieces[0] + seps[0] + Join(pieces[1..], seps[1..])
  }

  /** Re-inserting the removed separators between the statements gives back the script. */
  lemma {:induction false} SplitRejoin(s: string)
    ensures |Split(s)| == |Separators(s)| + 1
    ensures Join(Split(s), Separators(s)) == s
    decreases |s|
  {
    var k := FirstTerminator(s, 0);
    if k < |s| {
      var e := BreakRunEnd(s, k + 1);
      var rest := s[e..];
      SplitRejoin(rest);
      assert Split(s) == [s[..k]] + Split(rest) && Separators(s) == [s[k..e]] + Separators(rest);
      JoinCons(s[..k], Split(rest), s[k..e], Separators(rest));
      Slices(s, k, e);
    }
  }

  lemma Slices(s: string, k: nat, e: nat)
    requires k <= e <= |s|
    ensures s == s[..k] + s[k..e] + s[e..]
  {
  }

  /** Joining after one more piece and separator puts them in front. */
  lemma JoinCons(piece: string, pieces: seq<string>, sep: string, seps: seq<string>)
    requires |pieces| == |seps| + 1
    ensures Join([piece] + pieces, [sep] + seps) == piece + sep + Join(pieces, seps)
  {
    assert ([piece] + pieces)[1..] == pieces;
    assert ([sep] + seps)[1..] == seps;
  }


  /** Every separator is a `;` followed by a non-empty run of line breaks. */
  lemma {:induction false} SeparatorsAreTerminators(s: string)
    ensures forall sep :: sep in Separators(s) ==>
      |sep| >= 2 && sep[0] == ';' && forall j :: 1 <= j < |sep| ==> IsLineBreak(sep[j])
    decreases |s|
  {
    var k := FirstTerminator(s, 0);
    if k < |s| {
      SeparatorsAreTerminators(s[BreakRunEnd(s, k + 1)..]);
    }
  }

  /** No statement contains a `;` immediately followed by a line break. */
  lemma {:induction false} PiecesHaveNoTerminator(s: string)
    ensures forall p :: p in Split(s) ==> NoTerminator(p)
    decreases |s|
  {
    var k := FirstTerminator(s, 0);
    if k < |s| {
      PiecesHaveNoTerminator(s[BreakRunEnd(s, k + 1)..]);
      var p := s[..k];
      forall j | 0 <= j < |p| ensures !TerminatorAt(p, j) {
        assert !TerminatorAt(s, j);
      }
    }
  }

  /** The cut takes the whole run of line breaks: no statement after the first starts with one. */
  lemma {:induction false} LaterPiecesStartWithoutBreak(s: string)
    ensures forall i :: 1 <= i < |Split(s)| && |Split(s)[i]| > 0 ==> !IsLineBreak(Split(s)[i][0])
    decreases |s|
  {
    var k := FirstTerminator(s, 0);
    if k < |s| {
      var rest := s[BreakRunEnd(s, k + 1)..];
      LaterPiecesStartWithoutBreak(rest);
      assert Split(s)[1..] == Split(rest);
      if |rest| > 0 {
        assert Split(rest)[0] == rest[..FirstTerminator(rest, 0)] || Split(rest)[0] == rest;
      }
    }
  }

  /** A script is one statement exactly when it has no terminator: a `;` not followed by a line break stays inside. */
  lemma SingleStatementIff(s: string)
    ensures Split(s) == [s] <==> NoTerminator(s)
  {
    var k := FirstTerminator(s, 0);
    if k < |s| {
      assert TerminatorAt(s, k);
      assert |Split(s)| >= 2;
    }
  }

  /**
   * A script that ends with a terminator (a `;` followed only by line breaks) yields a final
   * empty statement, which is still sent.
   */
  lemma {:induction false} TrailingTerminatorYieldsEmptyStatement(s: string, t: nat)
    requires t + 1 < |s| && s[t] == ';'
    requires forall j :: t < j < |s| ==> IsLineBreak(s[j])
    ensures Split(s)[|Split(s)| - 1] == ""
    decreases |s|
  {
    assert TerminatorAt(s, t);
    var k := FirstTerminator(s, 0);
    assert k <= t;
    var e := BreakRunEnd(s, k + 1);
    var rest := s[e..];
    assert Split(s)[1..] == Split(rest);
    if k == t {
      assert e == |s|;
      assert rest == "";
    } else {
      assert e <= t;
      TrailingTerminatorYieldsEmptyStatement(rest, t - e);
    }
  }
}
