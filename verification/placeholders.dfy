/** Positional placeholders `$1`, `$2`, ... and their substitution into a
    stored command template, one argument after another in ascending order,
    by literal `strings.ReplaceAll`. */
module Placeholders {
  import opened Text

  /** The decimal digit for `d`. */
  function Digit(d: nat): (c: char)
    requires d < 10
    ensures '0' <= c <= '9'
  {
    ('0' as int + d) as char
  }

  /** `fmt.Sprintf("%d", n)` for a non-negative `n`: decimal, no leading zeros. */
  function Decimal(n: nat): (s: string)
    ensures s != [] && forall i :: 0 <= i < |s| ==> '0' <= s[i] <= '9'
    ensures s[0] == '0' ==> n == 0
  {
    if n < 10 then [Digit(n)] else Decimal(n / 10) + [Digit(n % 10)]
  }

  /** The number a string of decimal digits denotes. */
  function Value(s: string): (n: int) {
    if s == [] then 0 else 10 * Value(s[..|s| - 1]) + (s[|s| - 1] as int - '0' as int)
  }

  /** Reading back a printed number gives the number. */
  lemma {:induction false} DecimalRoundTrip(n: nat)
    ensures Value(Decimal(n)) == n
  {
    if n >= 10 {
      DecimalRoundTrip(n / 10);
      var s := Decimal(n);
      assert s[..|s| - 1] == Decimal(n / 10);
    }
  }

  /** The placeholder for the `i`-th argument: `fmt.Sprintf("$%d", i)`. */
  function Placeholder(i: nat): (p: string) {
    "$" + Decimal(i)
  }

  /** Distinct positions have distinct placeholders. */
  lemma PlaceholderInjective(i: nat, j: nat)
    requires Placeholder(i) == Placeholder(j)
    ensures i == j
  {
    assert Decimal(i) == Placeholder(i)[1..];
    DecimalRoundTrip(i);
    DecimalRoundTrip(j);
  }

  /** The placeholder of a position below ten is `$` and one digit. */
  lemma SingleDigitPlaceholder(i: nat)
    requires i < 10
    ensures Placeholder(i) == ['$', Digit(i)]
  {
  }

  /** The placeholder of position `10 * i + d` starts with the placeholder of
      position `i`: `$1` is a prefix of `$10`, ..., `$19`. */
  lemma PlaceholderPrefix(i: nat, d: nat)
    requires 1 <= i && d < 10
    ensures Placeholder(10 * i + d) == Placeholder(i) + [Digit(d)]
  {
    var n := 10 * i + d;
    assert n / 10 == i && n % 10 == d;
  }

  /** The `ReplaceAll` pass for position `i` rewrites the front of the
      placeholder for position `10 * i + d`, leaving its last digit behind. */
  lemma LongerPlaceholderRewritten(i: nat, d: nat, arg: string)
    requires 1 <= i && d < 10
    ensures ReplaceAll(Placeholder(10 * i + d), Placeholder(i), arg) == arg + [Digit(d)]
  {
    PlaceholderPrefix(i, d);
    ReplaceAllHead([Digit(d)], Placeholder(i), arg);
    ReplaceAllMissingHead([Digit(d)], Placeholder(i), arg);
  }

  // ---------------------------------------------------------------------
  // The substitution loop of runCommand, as a fold

  /** The template after the passes for positions 1 to |args|, in that order:
      pass `i` replaces every occurrence of `$i` by `args[i - 1]` in the
      result of the passes before it. */
  function SubstituteAll(template: string, args: seq<string>): (command: string)
    decreases |args|
  {
    if args == [] then template
    else
      var n := |args|;
      ReplaceAll(SubstituteAll(template, args[..n - 1]), Placeholder(n), args[n - 1])
  }

  /** With no arguments the template is unchanged. */
  lemma SubstituteNoArguments(template: string)
    ensures SubstituteAll(template, []) == template
  {
  }

  /** A template without `$` is never changed, whatever the arguments. */
  lemma {:induction false} SubstituteWithoutDollar(template: string, args: seq<string>)
    requires '$' !in template
    ensures SubstituteAll(template, args) == template
    decreases |args|
  {
    if args != [] {
      var n := |args|;
      SubstituteWithoutDollar(template, args[..n - 1]);
      ReplaceAllMissingHead(template, Placeholder(n), args[n - 1]);
    }
  }

  // ---------------------------------------------------------------------
  // What substitution means for a template built from text and placeholders

  /** A piece of a template: literal text, or the placeholder of a position. */
  datatype Piece = Lit(text: string) | Hole(index: nat)

  /** A piece with one argument list filled in: a hole whose position has an
      argument becomes that argument; any other hole stays a placeholder. */
  function Fill(p: Piece, args: seq<string>): (text: string) {
    match p
    case Lit(t) => t
    case Hole(k) => if 1 <= k <= |args| then args[k - 1] else Placeholder(k)
  }

  /** The pieces filled in and concatenated; `Expand(ps, [])` is the template
      text itself, every hole written as its placeholder. */
  function Expand(ps: seq<Piece>, args: seq<string>): (text: string) {
    if ps == [] then "" else Fill(ps[0], args) + Expand(ps[1..], args)
  }

  /** A digit that can begin the decimal form of a position: positions
      start at 1, and `%d` prints no leading zero. */
  predicate LeadingDigit(c: char) {
    '1' <= c <= '9'
  }

  /** Text that no placeholder can match, wherever it is placed: every `$`
      in it is followed, inside the text, by a character that is not a digit
      from 1 to 9 (`$HOME`, `$NF`, `$$x`, `$0`; but not `$7` or a trailing
      `$`). */
  predicate Inert(t: string) {
    forall i :: 0 <= i < |t| && t[i] == '$' ==> i + 1 < |t| && !LeadingDigit(t[i + 1])
  }

  /** Pieces whose text is inert and whose holes are positions 1 to 9. */
  predicate PieceOk(p: Piece) {
    match p
    case Lit(t) => Inert(t)
    case Hole(k) => 1 <= k <= 9
  }

  predicate WellFormed(ps: seq<Piece>) {
    forall i :: 0 <= i < |ps| ==> PieceOk(ps[i])
  }

  predicate InertArgs(args: seq<string>) {
    forall i :: 0 <= i < |args| ==> Inert(args[i])
  }

  /** The placeholder of a position is `$` followed by a digit from 1 to 9
      and possibly more digits. */
  lemma PlaceholderShape(i: nat)
    requires i >= 1
    ensures |Placeholder(i)| >= 2 && Placeholder(i)[0] == '$' && LeadingDigit(Placeholder(i)[1])
  {
    assert Placeholder(i)[1] == Decimal(i)[0];
  }

  /** Inert text is copied through unchanged by the pass of any position,
      and the scan goes on after it. */
  lemma {:induction false} ReplaceAllSkipInert(x: string, y: string, n: nat, rep: string)
    requires n >= 1 && Inert(x)
    ensures ReplaceAll(x + y, Placeholder(n), rep) == x + ReplaceAll(y, Placeholder(n), rep)
    decreases |x|
  {
    var pat := Placeholder(n);
    PlaceholderShape(n);
    if x == [] {
      assert x + y == y;
    } else {
      var s := x + y;
      assert s[1..] == x[1..] + y;
      assert Inert(x[1..]) by {
        forall i | 0 <= i < |x[1..]| && x[1..][i] == '$'
          ensures i + 1 < |x[1..]| && !LeadingDigit(x[1..][i + 1])
        {
          assert x[i + 1] == '$';
        }
      }
      ReplaceAllSkipInert(x[1..], y, n, rep);
      if |s| >= |pat| {
        if x[0] == '$' {
          assert s[..|pat|][1] == x[1] != pat[1];
        } else {
          assert s[..|pat|][0] == x[0] != pat[0];
        }
        assert ReplaceAll(s, pat, rep) == [s[0]] + ReplaceAll(s[1..], pat, rep);
      } else {
        assert ReplaceAll(y, pat, rep) == y;
      }
      assert x == [x[0]] + x[1..];
    }
  }

  /** The pass for position `j` leaves the placeholder of a different
      single-digit position `k` alone. */
  lemma OtherPlaceholderKept(k: nat, j: nat, rest: string, arg: string)
    requires 1 <= k <= 9 && 1 <= j <= 9 && k != j
    ensures ReplaceAll(Placeholder(k) + rest, Placeholder(j), arg)
         == Placeholder(k) + ReplaceAll(rest, Placeholder(j), arg)
  {
    var x, pat := Placeholder(k), Placeholder(j);
    SingleDigitPlaceholder(k);
    SingleDigitPlaceholder(j);
    assert |x| == 2 && |pat| == 2 && x[1] != pat[1] && pat[0] == '$' != x[1];
    var s := x + rest;
    assert s[..|pat|] == x;
    ReplaceAllMismatch(s, pat, arg);
    assert s[1..] == [x[1]] + rest;
    ReplaceAllSkip([x[1]], rest, pat, arg);
    assert [s[0]] + [x[1]] == x;
  }

  /** The pass for the next position, on one piece followed by any text:
      the piece comes out filled for one more argument, and the scan goes on
      with the text after it. */
  lemma FillStep(p: Piece, done: seq<string>, arg: string, rest: string)
    requires PieceOk(p) && InertArgs(done)
    ensures ReplaceAll(Fill(p, done) + rest, Placeholder(|done| + 1), arg)
         == Fill(p, done + [arg]) + ReplaceAll(rest, Placeholder(|done| + 1), arg)
  {
    var pat := Placeholder(|done| + 1);
    match p
    case Lit(t) =>
      ReplaceAllSkipInert(t, rest, |done| + 1, arg);
    case Hole(k) =>
      if k <= |done| {
        assert (done + [arg])[k - 1] == done[k - 1];
        ReplaceAllSkipInert(done[k - 1], rest, |done| + 1, arg);
      } else if k == |done| + 1 {
        ReplaceAllHead(rest, pat, arg);
      } else {
        OtherPlaceholderKept(k, |done| + 1, rest, arg);
      }
  }

  /** One pass: replacing the placeholder of the next position fills exactly
      the holes of that position. */
  lemma {:induction false} SubstituteStep(ps: seq<Piece>, done: seq<string>, arg: string)
    requires WellFormed(ps) && InertArgs(done)
    ensures ReplaceAll(Expand(ps, done), Placeholder(|done| + 1), arg) == Expand(ps, done + [arg])
  {
    if ps != [] {
      assert PieceOk(ps[0]);
      SubstituteStep(ps[1..], done, arg);
      FillStep(ps[0], done, arg, Expand(ps[1..], done));
    }
  }

  /** Substitution is right for well-formed templates and inert arguments:
      every placeholder whose position has an argument is replaced by
      that argument, every other placeholder stays in place literally, and
      all other text is kept. */
  lemma {:induction false} SubstituteExpand(ps: seq<Piece>, args: seq<string>)
    requires WellFormed(ps) && InertArgs(args)
    ensures SubstituteAll(Expand(ps, []), args) == Expand(ps, args)
    decreases |args|
  {
    if args != [] {
      var n := |args|;
      var done := args[..n - 1];
      assert InertArgs(done) by {
        forall i | 0 <= i < |done| ensures Inert(done[i]) {
          assert done[i] == args[i];
        }
      }
      SubstituteExpand(ps, done);
      SubstituteStep(ps, done, args[n - 1]);
      assert done + [args[n - 1]] == args;
    }
  }

  // ---------------------------------------------------------------------
  // The two consequences of literal, ascending substitution

  /** `$1` also rewrites the front of `$10`: with one argument "a", the
      template "echo $10" becomes "echo a0". */
  lemma PrefixQuirk()
    ensures SubstituteAll("echo $10", ["a"]) == "echo a0"
  {
    var t := "echo $10";
    LongerPlaceholderRewritten(1, 0, "a");
    assert Placeholder(10) == "$10" by {
      PlaceholderPrefix(1, 0);
    }
    assert t == "echo " + Placeholder(10);
    ReplaceAllSkip("echo ", Placeholder(10), Placeholder(1), "a");
    assert ["a"][..0] == [];
  }

  /** An argument that is itself a later placeholder is substituted again by
      the later pass: "echo $1" with arguments "$2" and "b" becomes "echo b". */
  lemma ResubstitutionQuirk()
    ensures SubstituteAll("echo $1", ["$2", "b"]) == "echo b"
  {
    var p1, p2 := Placeholder(1), Placeholder(2);
    SingleDigitPlaceholder(1);
    SingleDigitPlaceholder(2);
    assert p1 == "$1" && p2 == "$2";
    var first := ReplaceAll("echo " + p1, p1, p2);
    assert first == "echo " + p2 by {
      ReplaceAllSkip("echo ", p1, p1, p2);
      ReplaceAllHead([], p1, p2);
      assert p1 + [] == p1;
    }
    assert SubstituteAll("echo $1", ["$2"]) == first by {
      assert ["$2"][..0] == [];
      assert "echo $1" == "echo " + p1;
    }
    assert ReplaceAll(first, p2, "b") == "echo b" by {
      ReplaceAllSkip("echo ", p2, p2, "b");
      ReplaceAllHead([], p2, "b");
      assert p2 + [] == p2;
    }
    assert ["$2", "b"][..1] == ["$2"];
  }

  /** The template "ls $HOME $1 $2" as pieces. */
  const LS_PIECES: seq<Piece> := [Lit("ls $HOME "), Hole(1), Lit(" "), Hole(2)]

  lemma LsPiecesWellFormed()
    ensures WellFormed(LS_PIECES)
  {
    var t := "ls $HOME ";
    forall i | 0 <= i < |t| && t[i] == '$' ensures i + 1 < |t| && !LeadingDigit(t[i + 1]) {
      assert i == 3;
    }
    assert Inert(t);
    var ps := LS_PIECES;
    assert PieceOk(ps[0]) && PieceOk(ps[1]) && PieceOk(ps[2]) && PieceOk(ps[3]);
  }

  lemma LsTemplate()
    ensures Expand(LS_PIECES, []) == "ls $HOME $1 $2"
  {
    var ps := LS_PIECES;
    SingleDigitPlaceholder(1);
    SingleDigitPlaceholder(2);
    assert Expand(ps[3..], []) == "$2";
    assert Expand(ps[2..], []) == " $2";
    assert Expand(ps[1..], []) == "$1 $2";
  }

  lemma LsWithArgument()
    ensures Expand(LS_PIECES, ["x"]) == "ls $HOME x $2"
  {
    var ps := LS_PIECES;
    SingleDigitPlaceholder(2);
    assert Expand(ps[3..], ["x"]) == "$2";
    assert Expand(ps[2..], ["x"]) == " $2";
    assert Expand(ps[1..], ["x"]) == "x $2";
  }

  /** A `$` that does not start a placeholder is kept, as is any placeholder
      without an argument: "ls $HOME $1 $2" with the argument "x" becomes
      "ls $HOME x $2". */
  lemma OtherDollarsKept()
    ensures SubstituteAll("ls $HOME $1 $2", ["x"]) == "ls $HOME x $2"
  {
    LsPiecesWellFormed();
    LsTemplate();
    LsWithArgument();
    assert InertArgs(["x"]);
    SubstituteExpand(LS_PIECES, ["x"]);
  }

  /** The template "echo $0 $1" as pieces: `$0` is text, since no position
      prints as `0`. */
  const ZERO_PIECES: seq<Piece> := [Lit("echo $0 "), Hole(1)]

  lemma ZeroPiecesWellFormed()
    ensures WellFormed(ZERO_PIECES)
  {
    var t := "echo $0 ";
    forall i | 0 <= i < |t| && t[i] == '$' ensures i + 1 < |t| && !LeadingDigit(t[i + 1]) {
      assert i == 5;
    }
    assert Inert(t);
    var ps := ZERO_PIECES;
    assert PieceOk(ps[0]) && PieceOk(ps[1]);
  }

  lemma ZeroTemplate()
    ensures Expand(ZERO_PIECES, []) == "echo $0 $1"
    ensures Expand(ZERO_PIECES, ["a"]) == "echo $0 a"
  {
    var ps := ZERO_PIECES;
    SingleDigitPlaceholder(1);
    assert Expand(ps[1..], []) == "$1";
    assert Expand(ps[1..], ["a"]) == "a";
  }

  /** `$0` is never substituted: "echo $0 $1" with the argument "a" becomes
      "echo $0 a". */
  lemma ZeroKept()
    ensures SubstituteAll("echo $0 $1", ["a"]) == "echo $0 a"
  {
    ZeroPiecesWellFormed();
    ZeroTemplate();
    assert InertArgs(["a"]);
    SubstituteExpand(ZERO_PIECES, ["a"]);
  }
}
