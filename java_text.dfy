/**
 * The three java.lang.String / java.util.Formatter operations the buffer
 * leans on: split("::") for qualified module names, replace(char, char) for
 * the output path, and the "%s" / "%1$s" conversions of String.format.
 */
module JavaText {
  import opened Text

  /** The regular expression "::" is found at the front of `s`. */
  predicate SeparatorAhead(s: string) {
    |s| >= 2 && s[0] == ':' && s[1] == ':'
  }

  /** The regular expression "::" occurs somewhere in `s`. */
  predicate HasSeparator(s: string)
    decreases |s|
  {
    |s| >= 2 && (SeparatorAhead(s) || HasSeparator(s[1..]))
  }

  /**
   * Scans `s` left to right, cutting at every non-overlapping "::"; `current`
   * is the piece being collected. Every piece is kept, empty ones included.
   */
  function Pieces(s: string, current: string): (r: seq<string>)
    ensures |r| >= 1
    decreases |s|
  {
    if SeparatorAhead(s) then [current] + Pieces(s[2..], "")
    else if s == [] then [current]
    else Pieces(s[1..], current + [s[0]])
  }

  /** Drops the empty strings at the end of a split result. */
  function DropTrailingEmpty(r: seq<string>): (t: seq<string>)
    ensures |t| <= |r| && t == r[..|t|]
    ensures forall i :: |t| <= i < |r| ==> r[i] == ""
    ensures t != [] ==> t[|t| - 1] != ""
  {
    if r == [] then []
    else if r[|r| - 1] == "" then DropTrailingEmpty(r[..|r| - 1])
    else r
  }

  /**
   * String.split("::"): a string without a match is its own single piece;
   * otherwise the pieces between matches, without the trailing empty ones.
   */
  function Split(s: string): seq<string> {
    if !HasSeparator(s) then [s] else DropTrailingEmpty(Pieces(s, ""))
  }

  /** Appending one character creates a "::" only right after a ':'. */
  lemma {:induction false} HasSeparatorSnoc(c: string, x: char)
    ensures HasSeparator(c + [x]) <==> HasSeparator(c) || (c != [] && c[|c| - 1] == ':' && x == ':')
    decreases |c|
  {
    if |c| >= 2 {
      assert (c + [x])[1..] == c[1..] + [x];
      HasSeparatorSnoc(c[1..], x);
    } else if |c| == 1 {
      assert (c + [x])[1..] == [x];
    }
  }

  /**
   * No piece contains "::", and every piece but the last ends with a
   * character other than ':'.
   */
  predicate CleanPieces(r: seq<string>) {
    && (forall i :: 0 <= i < |r| ==> !HasSeparator(r[i]))
    && (forall i :: 0 <= i < |r| - 1 ==> r[i] == [] || r[i][|r[i]| - 1] != ':')
  }

  /**
   * While the piece being collected holds no "::" and no "::" straddles it
   * and the rest, the pieces are clean.
   */
  lemma {:induction false} PiecesFree(s: string, current: string)
    requires !HasSeparator(current)
    requires current != [] && current[|current| - 1] == ':' ==> s == [] || s[0] != ':'
    ensures CleanPieces(Pieces(s, current))
    decreases |s|
  {
    if SeparatorAhead(s) {
      PiecesFree(s[2..], "");
      var rest := Pieces(s[2..], "");
      var r := Pieces(s, current);
      assert r == [current] + rest;
      forall i | 1 <= i < |r| ensures r[i] == rest[i - 1] {
      }
    } else if s != [] {
      HasSeparatorSnoc(current, s[0]);
      PiecesFree(s[1..], current + [s[0]]);
      assert Pieces(s, current) == Pieces(s[1..], current + [s[0]]);
    }
  }

  /**
   * The components of split("::") contain no "::", and every component but
   * the last ends with a character other than ':': each match is the leftmost.
   */
  lemma SplitPieces(s: string)
    ensures CleanPieces(Split(s))
  {
    if HasSeparator(s) {
      PiecesFree(s, "");
      var r := Pieces(s, "");
      var t := Split(s);
      assert t == r[..|t|];
      forall i | 0 <= i < |t| ensures t[i] == r[i] {
      }
    }
  }

  /** Joins pieces with "::" between them. */
  function Join(parts: seq<string>): string {
    if parts == [] then ""
    else if |parts| == 1 then parts[0]
    else parts[0] + "::" + Join(parts[1..])
  }

  lemma {:induction false} JoinPieces(s: string, current: string)
    ensures Join(Pieces(s, current)) == current + s
    decreases |s|
  {
    if SeparatorAhead(s) {
      JoinPieces(s[2..], "");
      assert s == "::" + s[2..];
    } else if s == [] {
    } else {
      JoinPieces(s[1..], current + [s[0]]);
      assert s == [s[0]] + s[1..];
    }
  }

  /** The last piece is never empty when `s` ends with a character other than ':'. */
  lemma {:induction false} LastPieceNonEmpty(s: string, current: string)
    requires s != [] && s[|s| - 1] != ':'
    ensures var r := Pieces(s, current); r[|r| - 1] != ""
    decreases |s|
  {
    if SeparatorAhead(s) {
      LastPieceNonEmpty(s[2..], "");
    } else if |s| > 1 {
      LastPieceNonEmpty(s[1..], current + [s[0]]);
    }
  }

  /**
   * Splitting a qualified name that does not end with ':' and joining it again
   * gives the name back: no component is lost or invented.
   */
  lemma SplitJoin(s: string)
    requires s == [] || s[|s| - 1] != ':'
    ensures Join(Split(s)) == s
  {
    if HasSeparator(s) {
      LastPieceNonEmpty(s, "");
      JoinPieces(s, "");
      assert Split(s) == Pieces(s, "");
    }
  }

  /** String.replace(from, to) on characters. */
  function Replace(s: string, from: char, to: char): (r: string)
    ensures |r| == |s|
    ensures forall i :: 0 <= i < |s| ==> r[i] == (if s[i] == from then to else s[i])
  {
    if s == [] then [] else [if s[0] == from then to else s[0]] + Replace(s[1..], from, to)
  }

  /** Replacing back restores the original when the new character did not occur in it. */
  lemma ReplaceBack(s: string, from: char, to: char)
    requires to !in s
    ensures Replace(Replace(s, from, to), to, from) == s
  {
    var r := Replace(Replace(s, from, to), to, from);
    forall i | 0 <= i < |s| ensures r[i] == s[i] {
      assert s[i] != to;
    }
  }

  /** Why String.format would throw: a missing argument or a conversion outside this model. */
  datatype FormatError = MissingArgument | UnsupportedConversion

  datatype Formatted = Formatted(text: string) | FormatFailed(error: FormatError)

  predicate IsDigit(c: char) { '1' <= c <= '9' }

  /**
   * Formatter.format with the conversions the generator writes: "%s" takes the
   * next ordinary argument (`next` is its index), "%<d>$s" the d-th argument,
   * "%%" a percent sign. Any other conversion is reported as unsupported.
   */
  function FormatFrom(fmt: string, args: seq<string>, next: nat): Formatted
    decreases |fmt|
  {
    if fmt == [] then Formatted("")
    else if fmt[0] != '%' then
      match FormatFrom(fmt[1..], args, next)
      case Formatted(t) => Formatted([fmt[0]] + t)
      case FormatFailed(e) => FormatFailed(e)
    else if |fmt| >= 2 && fmt[1] == '%' then
      match FormatFrom(fmt[2..], args, next)
      case Formatted(t) => Formatted("%" + t)
      case FormatFailed(e) => FormatFailed(e)
    else if |fmt| >= 2 && fmt[1] == 's' then
      if next >= |args| then FormatFailed(MissingArgument)
      else
        match FormatFrom(fmt[2..], args, next + 1)
        case Formatted(t) => Formatted(args[next] + t)
        case FormatFailed(e) => FormatFailed(e)
    else if |fmt| >= 4 && IsDigit(fmt[1]) && fmt[2] == '$' && fmt[3] == 's' then
      var index := (fmt[1] as int) - ('1' as int);
      if index >= |args| then FormatFailed(MissingArgument)
      else
        match FormatFrom(fmt[4..], args, next)
        case Formatted(t) => Formatted(args[index] + t)
        case FormatFailed(e) => FormatFailed(e)
    else FormatFailed(UnsupportedConversion)
  }

  /** String.format(fmt, args). */
  function Format(fmt: string, args: seq<string>): Formatted {
    FormatFrom(fmt, args, 0)
  }

  /** Text without '%' is copied verbatim ahead of whatever the rest formats to. */
  lemma {:induction false} FormatLiteral(literal: string, rest: string, args: seq<string>, next: nat)
    requires '%' !in literal
    ensures FormatFrom(literal + rest, args, next) ==
      match FormatFrom(rest, args, next)
      case Formatted(t) => Formatted(literal + t)
      case FormatFailed(e) => FormatFailed(e)
    decreases |literal|
  {
    if literal != [] {
      var whole := literal + rest;
      assert whole[0] == literal[0] && literal[0] != '%';
      assert whole[1..] == literal[1..] + rest;
      FormatLiteral(literal[1..], rest, args, next);
      assert literal == [literal[0]] + literal[1..];
      match FormatFrom(rest, args, next)
      case Formatted(t) =>
        assert [literal[0]] + (literal[1..] + t) == literal + t;
      case FormatFailed(e) =>
    } else {
      assert literal + rest == rest;
    }
  }

  /** A template with one "%1$s" formats to the plain concatenation the generator writes. */
  lemma FormatOneIndexed(before: string, after: string, arg: string)
    requires '%' !in before && '%' !in after
    ensures Format(before + "%1$s" + after, [arg]) == Formatted(before + arg + after)
  {
    FormatLiteral(after, [], [arg], 0);
    assert after + [] == after;
    var tail := "%1$s" + after;
    assert tail[0] == '%' && tail[1] == '1' && tail[2] == '$' && tail[3] == 's';
    assert tail[4..] == after;
    assert FormatFrom(tail, [arg], 0) == Formatted(arg + after);
    FormatLiteral(before, "%1$s" + after, [arg], 0);
    assert before + "%1$s" + after == before + ("%1$s" + after);
  }

  /** A leading "%s" takes the next ordinary argument. */
  lemma FormatOrdinaryAhead(rest: string, args: seq<string>, next: nat)
    requires next < |args|
    ensures FormatFrom("%s" + rest, args, next) ==
      match FormatFrom(rest, args, next + 1)
      case Formatted(t) => Formatted(args[next] + t)
      case FormatFailed(e) => FormatFailed(e)
  {
    var fmt := "%s" + rest;
    assert fmt[0] == '%' && fmt[1] == 's' && fmt[2..] == rest;
  }

  /** Literal text ahead of a tail that formats to `t`. */
  lemma LiteralThen(literal: string, rest: string, args: seq<string>, next: nat, t: string)
    requires '%' !in literal && FormatFrom(rest, args, next) == Formatted(t)
    ensures FormatFrom(literal + rest, args, next) == Formatted(literal + t)
  {
    FormatLiteral(literal, rest, args, next);
  }

  /** Literal text with nothing after it formats to itself. */
  lemma LiteralAlone(literal: string, args: seq<string>, next: nat)
    requires '%' !in literal
    ensures FormatFrom(literal, args, next) == Formatted(literal)
  {
    FormatLiteral(literal, [], args, next);
    assert literal + [] == literal;
  }

  /** A "%s" ahead of a tail that formats to `t`. */
  lemma OrdinaryThen(rest: string, args: seq<string>, next: nat, t: string)
    requires next < |args| && FormatFrom(rest, args, next + 1) == Formatted(t)
    ensures FormatFrom("%s" + rest, args, next) == Formatted(args[next] + t)
  {
    FormatOrdinaryAhead(rest, args, next);
  }

  /**
   * Five pieces joined from the right are the same as joined from the left;
   * a separate step so the format proofs never regroup concatenations themselves.
   */
  lemma Regroup5(a: string, b: string, c: string, d: string, e: string)
    ensures a + (b + (c + (d + e))) == a + b + c + d + e
  {
  }

  /** "%s = '%s'" (the enum constant template) formats its two arguments in order. */
  lemma FormatTwoOrdinary(before: string, middle: string, after: string, first: string, second: string)
    requires '%' !in before && '%' !in middle && '%' !in after
    ensures Format(before + "%s" + middle + "%s" + after, [first, second]) ==
      Formatted(before + first + middle + second + after)
  {
    var args := [first, second];
    LiteralAlone(after, args, 2);
    OrdinaryThen(after, args, 1, after);
    LiteralThen(middle, "%s" + after, args, 1, second + after);
    OrdinaryThen(middle + ("%s" + after), args, 0, middle + (second + after));
    LiteralThen(before, "%s" + (middle + ("%s" + after)), args, 0, first + (middle + (second + after)));
    Regroup5(before, "%s", middle, "%s", after);
    Regroup5(before, first, middle, second, after);
  }

  /** The explicit index conversion "%<d>$s". */
  function IndexSpec(d: char): string {
    ['%', d, '$', 's']
  }

  /** The argument position the digit `d` of "%<d>$s" refers to. */
  function SpecIndex(d: char): int {
    (d as int) - ('1' as int)
  }

  /** A leading "%<d>$s" takes the d-th argument and leaves the ordinary index alone. */
  lemma FormatIndexedAhead(d: char, rest: string, args: seq<string>, next: nat)
    requires IsDigit(d) && SpecIndex(d) < |args|
    ensures FormatFrom(IndexSpec(d) + rest, args, next) ==
      match FormatFrom(rest, args, next)
      case Formatted(t) => Formatted(args[SpecIndex(d)] + t)
      case FormatFailed(e) => FormatFailed(e)
  {
    var fmt := IndexSpec(d) + rest;
    assert fmt[0] == '%' && fmt[1] == d && fmt[2] == '$' && fmt[3] == 's' && fmt[4..] == rest;
  }

  /** A "%<d>$s" ahead of a tail that formats to `t`. */
  lemma IndexedThen(d: char, rest: string, args: seq<string>, next: nat, t: string)
    requires IsDigit(d) && SpecIndex(d) < |args| && FormatFrom(rest, args, next) == Formatted(t)
    ensures FormatFrom(IndexSpec(d) + rest, args, next) == Formatted(args[SpecIndex(d)] + t)
  {
    FormatIndexedAhead(d, rest, args, next);
  }

  /**
   * A template with two explicit references formats to the concatenation with
   * the referenced arguments in their places (the same argument may be used twice).
   */
  lemma FormatTwoIndexed(before: string, d1: char, middle: string, d2: char, after: string, args: seq<string>)
    requires '%' !in before && '%' !in middle && '%' !in after
    requires IsDigit(d1) && SpecIndex(d1) < |args| && IsDigit(d2) && SpecIndex(d2) < |args|
    ensures Format(before + IndexSpec(d1) + middle + IndexSpec(d2) + after, args) ==
      Formatted(before + args[SpecIndex(d1)] + middle + args[SpecIndex(d2)] + after)
  {
    var first, second := args[SpecIndex(d1)], args[SpecIndex(d2)];
    LiteralAlone(after, args, 0);
    IndexedThen(d2, after, args, 0, after);
    LiteralThen(middle, IndexSpec(d2) + after, args, 0, second + after);
    IndexedThen(d1, middle + (IndexSpec(d2) + after), args, 0, middle + (second + after));
    LiteralThen(before, IndexSpec(d1) + (middle + (IndexSpec(d2) + after)), args, 0, first + (middle + (second + after)));
    Regroup5(before, IndexSpec(d1), middle, IndexSpec(d2), after);
    Regroup5(before, first, middle, second, after);
  }

  /** A reference to an argument that was not passed fails, as Formatter throws. */
  lemma FormatMissing(before: string, after: string)
    requires '%' !in before
    ensures Format(before + "%1$s" + after, []) == FormatFailed(MissingArgument)
  {
    var tail := "%1$s" + after;
    assert tail[0] == '%' && tail[1] == '1' && tail[2] == '$' && tail[3] == 's';
    FormatLiteral(before, tail, [], 0);
    assert before + "%1$s" + after == before + tail;
  }
}
