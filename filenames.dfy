/**
 * Discovery naming rules: which file names are migrations, and the version, display
 * name and format each one yields.
 *
 * A name is accepted when it matches `^([0-9]+)__([A-z0-9_]*)\.(js|cql)$`. `Parse`
 * decomposes a name directly; `Compose` rebuilds a name from its parts, and the two
 * lemmas `ParseComposes` and `ComposeParses` show that `Parse` accepts exactly the
 * names of the form `Compose(f)` with `f` well formed, i.e. exactly the names the
 * regular expression matches.
 */
module FileNames {
  import opened Wrappers
  import opened Model

  predicate IsDigit(c: char) { '0' <= c <= '9' }

  /**
   * The character class `[A-z0-9_]`. The range `A-z` runs from code point 65 to 122, so it
   * also admits `[`, `\`, `]`, `^`, `_` and the backtick.
   */
  predicate IsWordChar(c: char) { ('A' <= c <= 'z') || IsDigit(c) || c == '_' }

  predicate AllDigits(s: string) { forall i :: 0 <= i < |s| ==> IsDigit(s[i]) }

  predicate AllWordChars(s: string) { forall i :: 0 <= i < |s| ==> IsWordChar(s[i]) }

  function Extension(k: Kind): string {
    match k
    case Js => "js"
    case Cql => "cql"
  }

  /** The three capture groups of a matching file name. */
  datatype FileName = FileName(digits: string, stem: string, kind: Kind)

  predicate WellFormed(f: FileName) {
    |f.digits| > 0 && AllDigits(f.digits) && AllWordChars(f.stem)
  }

  function Compose(f: FileName): string {
    f.digits + "__" + f.stem + "." + Extension(f.kind)
  }

  /** Length of the run of digits that starts at index `i`, as an end index. */
  function DigitRunEnd(s: string, i: nat): (e: nat)
    requires i <= |s|
    ensures i <= e <= |s|
    ensures forall j :: i <= j < e ==> IsDigit(s[j])
    ensures e < |s| ==> !IsDigit(s[e])
    decreases |s| - i
  {
    if i < |s| && IsDigit(s[i]) then DigitRunEnd(s, i + 1) else i
  }

  /** Index of the first `.` at or after `i`, or `|s|` when there is none. */
  function DotIndex(s: string, i: nat): (e: nat)
    requires i <= |s|
    ensures i <= e <= |s|
    ensures forall j :: i <= j < e ==> s[j] != '.'
    ensures e < |s| ==> s[e] == '.'
    decreases |s| - i
  {
    if i < |s| && s[i] != '.' then DotIndex(s, i + 1) else i
  }

  /**
   * Matching a file name against the discovery pattern. The digit group cannot give back
   * characters (the next one must be `_`, which is not a digit) and the name group cannot
   * contain `.`, so the match, when there is one, is unique.
   */
  function Parse(s: string): (r: Option<FileName>)
    ensures r.Some? ==> WellFormed(r.value) && Compose(r.value) == s
  {
    var n := DigitRunEnd(s, 0);
    if n == 0 || n + 2 > |s| || s[n] != '_' || s[n + 1] != '_' then None
    else
      var dot := DotIndex(s, n + 2);
      if dot == |s| || !AllWordChars(s[n + 2..dot]) then None
      else
        var ext := s[dot + 1..];
        var digits, stem := s[..n], s[n + 2..dot];
        if ext == "js" then
          Reassemble(s, n, dot);
          Some(FileName(digits, stem, Js))
        else if ext == "cql" then
          Reassemble(s, n, dot);
          Some(FileName(digits, stem, Cql))
        else None
  }

  /** A name cut at its `__` and at its dot is the concatenation of the pieces. */
  lemma Reassemble(s: string, n: nat, dot: nat)
    requires n + 2 <= dot < |s| && s[n] == '_' && s[n + 1] == '_' && s[dot] == '.'
    ensures s == s[..n] + "__" + s[n + 2..dot] + "." + s[dot + 1..]
  {
    assert s[n..n + 2] == "__";
    assert s == s[..n] + s[n..n + 2] + s[n + 2..dot] + [s[dot]] + s[dot + 1..];
  }

  /** Every name Parse accepts is a well-formed composition, and every well-formed composition is accepted as itself. */
  lemma ComposeParses(f: FileName)
    requires WellFormed(f)
    ensures Parse(Compose(f)) == Some(f)
  {
    var s := Compose(f);
    var n := |f.digits|;
    var dot := n + 2 + |f.stem|;
    ComposeLayout(f);
    DigitRunEndAt(s, 0, n);
    assert forall j :: n + 2 <= j < dot ==> s[j] != '.' by {
      forall j | n + 2 <= j < dot ensures s[j] != '.' {
        assert s[j] == f.stem[j - n - 2];
        assert IsWordChar(f.stem[j - n - 2]);
      }
    }
    DotIndexAt(s, n + 2, dot);
    assert AllWordChars(s[n + 2..dot]);
    match f.kind
    case Js =>
      assert s[dot + 1..] == "js";
    case Cql =>
      assert s[dot + 1..] == "cql" != "js";
  }

  /** Where each group of a composed name sits. */
  lemma ComposeLayout(f: FileName)
    ensures var s, n := Compose(f), |f.digits|;
      var dot := n + 2 + |f.stem|;
      dot < |s| && s[..n] == f.digits && s[n] == '_' && s[n + 1] == '_' &&
      s[n + 2..dot] == f.stem && s[dot] == '.' && s[dot + 1..] == Extension(f.kind)
  {
    var s, n := Compose(f), |f.digits|;
    var dot := n + 2 + |f.stem|;
    assert s[..n] == f.digits;
    assert s[n + 2..dot] == f.stem;
    assert s[dot + 1..] == Extension(f.kind);
  }

  /** A digit run that ends exactly at `e` is found by DigitRunEnd. */
  lemma DigitRunEndAt(s: string, i: nat, e: nat)
    requires i <= e <= |s|
    requires forall j :: i <= j < e ==> IsDigit(s[j])
    requires e < |s| ==> !IsDigit(s[e])
    ensures DigitRunEnd(s, i) == e
    decreases e - i
  {
    if i < e {
      DigitRunEndAt(s, i + 1, e);
    }
  }

  /** A first dot at `e` is found by DotIndex. */
  lemma DotIndexAt(s: string, i: nat, e: nat)
    requires i <= e <= |s|
    requires forall j :: i <= j < e ==> s[j] != '.'
    requires e < |s| ==> s[e] == '.'
    ensures DotIndex(s, i) == e
    decreases e - i
  {
    if i < e {
      DotIndexAt(s, i + 1, e);
    }
  }

  /** A name that Parse rejects does not match the pattern in any way. */
  lemma RejectedMatchesNothing(s: string, f: FileName)
    requires Parse(s) == None
    ensures !(WellFormed(f) && Compose(f) == s)
  {
    if WellFormed(f) && Compose(f) == s {
      ComposeParses(f);
    }
  }

  function DigitValue(c: char): nat
    requires IsDigit(c)
  {
    (c as int - '0' as int) as nat
  }

  /** `parseInt` of a string of decimal digits. */
  function DecimalValue(digits: string): (v: nat)
    requires AllDigits(digits)
    decreases |digits|
  {
    if |digits| == 0 then 0
    else DecimalValue(digits[..|digits| - 1]) * 10 + DigitValue(digits[|digits| - 1])
  }

  /**
   * Leading zeros do not change the version: `1__a.cql` and `01__a.cql` both give
   * version 1, and nothing in discovery rejects the duplicate.
   */
  lemma {:induction false} LeadingZeroKeepsValue(digits: string)
    requires AllDigits(digits)
    ensures AllDigits("0" + digits) && DecimalValue("0" + digits) == DecimalValue(digits)
    decreases |digits|
  {
    var z := "0" + digits;
    if |digits| > 0 {
      assert z[..|z| - 1] == "0" + digits[..|digits| - 1];
      LeadingZeroKeepsValue(digits[..|digits| - 1]);
    }
  }

  function Pow10(n: nat): (p: nat)
    ensures p >= 1
  {
    if n == 0 then 1 else 10 * Pow10(n - 1)
  }

  /** The version parsed from `n` digits is below 10^n. */
  lemma {:induction false} DecimalValueBound(digits: string)
    requires AllDigits(digits)
    ensures DecimalValue(digits) < Pow10(|digits|)
    decreases |digits|
  {
    if |digits| > 0 {
      DecimalValueBound(digits[..|digits| - 1]);
    }
  }

  predicate IsAscii(s: string) { forall i :: 0 <= i < |s| ==> s[i] as int < 128 }

  /** `toUpperCase` on a single ASCII character: only `a`..`z` change. */
  function UpperAscii(c: char): char {
    if 'a' <= c <= 'z' then (c as int - 32) as char else c
  }

  /** `name.replace(/_/g, " ")`. */
  function Spaced(name: string): (r: string)
    decreases |name|
  {
    if |name| == 0 then []
    else [if name[0] == '_' then ' ' else name[0]] + Spaced(name[1..])
  }

  lemma {:induction false} SpacedAt(name: string)
    ensures |Spaced(name)| == |name|
    ensures forall i :: 0 <= i < |name| ==>
      Spaced(name)[i] == (if name[i] == '_' then ' ' else name[i])
    decreases |name|
  {
    if |name| > 0 {
      SpacedAt(name[1..]);
    }
  }

  /**
   * `prettyName`: underscores become spaces and the first character is upper-cased.
   * For the empty name, which the pattern allows, `spaced[0]` is undefined and the call
   * throws; that is `None` here.
   */
  function PrettyName(name: string): (r: Option<string>)
    requires IsAscii(name)
    ensures r.None? <==> |name| == 0
  {
    var spaced := Spaced(name);
    SpacedAt(name);
    if |spaced| == 0 then None
    else Some([UpperAscii(spaced[0])] + spaced[1..])
  }

  /** Names over `[A-z0-9_]` are ASCII. */
  lemma WordCharsAreAscii(s: string)
    requires AllWordChars(s)
    ensures IsAscii(s)
  {
  }

  /**
   * The display name keeps the length, has a space exactly where the file name had an
   * underscore, keeps every other character after the first, and starts with the
   * upper-case form of the first character (a lower-case ASCII letter moves down by 32;
   * any other character except `_` is kept).
   */
  lemma PrettyNameShape(name: string)
    requires AllWordChars(name) && |name| > 0
    ensures var r := PrettyName(name).value;
      |r| == |name| &&
      (forall i :: 0 <= i < |r| ==> (r[i] == ' ' <==> name[i] == '_')) &&
      (forall i :: 1 <= i < |r| && name[i] != '_' ==> r[i] == name[i]) &&
      !('a' <= r[0] <= 'z') &&
      ('a' <= name[0] <= 'z' ==> r[0] as int == name[0] as int - 32) &&
      (name[0] != '_' && !('a' <= name[0] <= 'z') ==> r[0] == name[0]) &&
      (forall i :: 0 <= i < |r| ==> r[i] != '_')
  {
    WordCharsAreAscii(name);
    SpacedAt(name);
  }

  /** Applying prettyName to a display name changes nothing. */
  lemma PrettyNameIdempotent(name: string)
    requires IsAscii(name) && |name| > 0
    ensures var r := PrettyName(name).value;
      IsAscii(r) && PrettyName(r) == Some(r)
  {
    var r := PrettyName(name).value;
    SpacedAt(name);
    SpacedAt(r);
    assert Spaced(r) == r;
  }
}
