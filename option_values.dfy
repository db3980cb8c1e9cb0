/**
 * The structured option values: points and boxes given on the command line
 * as 2, 4 or 6 numbers.
 *
 * Each validate specialisation refuses a second occurrence of the option,
 * joins the tokens of the occurrence with a space and splits the result
 * again at runs of commas and spaces, so that "1,2", "1 2" and "1, 2" are
 * alike. The number of pieces must be the arity of the value type
 * (missing_parameter otherwise), and every piece must convert to a number
 * (invalid_option_value otherwise). The numbers fill the value in order:
 * a box takes its first corner from the first half and its second corner
 * from the second half.
 *
 * Integers are converted as lexical_cast<int32> converts them; the
 * conversion of floating point numbers is a parameter (parseReal).
 */
module OptionValues {
  import opened Wrappers
  import opened Text
  import opened Seqs

  newtype int32 = x: int | -0x8000_0000 <= x < 0x8000_0000

  /** The program_options exceptions a validator throws. */
  datatype OptionError =
    | MultipleOccurrences  // check_first_occurrence: the option was given twice
    | MissingParameter     // invalid_syntax::missing_parameter: wrong number of pieces
    | InvalidOptionValue   // validation_error::invalid_option_value: a piece is not a number

  datatype Vector2<T> = Vector2(x: T, y: T)
  datatype Vector3<T> = Vector3(x: T, y: T, z: T)
  datatype BBox2<T> = BBox2(min: Vector2<T>, max: Vector2<T>)
  datatype BBox3<T> = BBox3(min: Vector3<T>, max: Vector3<T>)

  // ---------------------------------------------------------------------
  // lexical_cast<int32>
  // ---------------------------------------------------------------------

  predicate IsDigit(c: char) {
    '0' <= c <= '9'
  }

  predicate AllDigits(s: string) {
    forall i :: 0 <= i < |s| ==> IsDigit(s[i])
  }

  /** The number a string of decimal digits denotes. */
  function DigitsValue(s: string): nat
    requires AllDigits(s)
    decreases |s|
  {
    if s == [] then 0
    else DigitsValue(s[..|s| - 1]) * 10 + (s[|s| - 1] as int - '0' as int)
  }

  /**
   * An optional '+' or '-' and at least one decimal digit, nothing else;
   * None when the text is not of that form or the value does not fit in
   * 32 bits.
   */
  function ParseInt32(s: string): (r: Option<int32>)
    ensures r.Some? ==> s != [] && AllDigits(if s[0] in "+-" then s[1..] else s)
  {
    var negative := s != [] && s[0] == '-';
    var digits := if s != [] && (s[0] == '-' || s[0] == '+') then s[1..] else s;
    if digits == [] || !AllDigits(digits) then None
    else
      var v: int := if negative then -(DigitsValue(digits) as int) else DigitsValue(digits);
      if -0x8000_0000 <= v < 0x8000_0000 then Some(v as int32) else None
  }

  /** The decimal digits of n, without leading zeros. */
  function ShowNat(n: nat): (s: string)
    ensures s != [] && AllDigits(s)
    decreases n
  {
    var d := ['0' + (n % 10) as char];
    if n < 10 then d else ShowNat(n / 10) + d
  }

  /** x in decimal, with a '-' when negative. */
  function ShowInt(x: int): string {
    if x < 0 then "-" + ShowNat(-x) else ShowNat(x)
  }

  lemma {:induction false} ShowNatValue(n: nat)
    ensures DigitsValue(ShowNat(n)) == n
    decreases n
  {
    var s := ShowNat(n);
    if n >= 10 {
      ShowNatValue(n / 10);
      assert s[..|s| - 1] == ShowNat(n / 10);
    }
  }

  /** Converting the decimal text of a 32-bit integer gives it back. */
  lemma ParseShowInt(x: int32)
    ensures ParseInt32(ShowInt(x as int)) == Some(x)
  {
    var s := ShowInt(x as int);
    if x < 0 {
      ShowNatValue(-(x as int));
      assert s[1..] == ShowNat(-(x as int));
    } else {
      ShowNatValue(x as int);
    }
  }

  /** A '+' in front changes nothing. */
  lemma PlusSign(x: int32)
    requires x >= 0
    ensures ParseInt32("+" + ShowInt(x as int)) == Some(x)
  {
    var s := "+" + ShowInt(x as int);
    assert s[1..] == ShowNat(x as int);
    ShowNatValue(x as int);
  }

  // ---------------------------------------------------------------------
  // The generic fixed-arity parse
  // ---------------------------------------------------------------------

  /** The pieces of one occurrence: joined with a space, split at comma/space runs. */
  function ValueTokens(values: seq<string>): (pieces: seq<string>)
    ensures |pieces| >= 1
    ensures forall k :: 0 <= k < |pieces| ==> NoneIn(pieces[k], IsCommaOrSpace)
  {
    Split(Join(values, " "), IsCommaOrSpace)
  }

  /** Every token converted, or None when one of them does not convert. */
  function ParseAll<T>(tokens: seq<string>, parse: string -> Option<T>): (r: Option<seq<T>>)
    ensures r.Some? <==> forall i :: 0 <= i < |tokens| ==> parse(tokens[i]).Some?
    ensures r.Some? ==> |r.value| == |tokens| && forall i :: 0 <= i < |tokens| ==> parse(tokens[i]) == Some(r.value[i])
    decreases |tokens|
  {
    if tokens == [] then Some([])
    else
      match parse(tokens[0])
      case None => None
      case Some(x) =>
        match ParseAll(tokens[1..], parse)
        case None =>
          assert exists i :: 0 <= i < |tokens| && parse(tokens[i]).None? by {
            var j :| 0 <= j < |tokens| - 1 && parse(tokens[1..][j]).None?;
            assert tokens[j + 1] == tokens[1..][j];
          }
          None
        case Some(xs) =>
          assert forall i :: 1 <= i < |tokens| ==> tokens[i] == tokens[1..][i - 1];
          Some([x] + xs)
  }

  /**
   * What the validators have in common: refuse a second occurrence, split
   * the values, check the count, convert every piece.
   */
  function ParseFixed<T>(occupied: bool, values: seq<string>, arity: nat, parse: string -> Option<T>)
    : (r: Result<seq<T>, OptionError>)
    ensures occupied ==> r == Failure(MultipleOccurrences)
    ensures !occupied && |ValueTokens(values)| != arity ==> r == Failure(MissingParameter)
    ensures var t := ValueTokens(values);
      !occupied && |t| == arity ==>
        (r.Success? <==> forall i :: 0 <= i < |t| ==> parse(t[i]).Some?)
    ensures r.Failure? ==> r.error in {MultipleOccurrences, MissingParameter, InvalidOptionValue}
    ensures r.Success? ==> var t := ValueTokens(values);
      && !occupied
      && |r.value| == |t| == arity
      && forall i :: 0 <= i < arity ==> parse(t[i]) == Some(r.value[i])
  {
    if occupied then Failure(MultipleOccurrences)
    else
      var t := ValueTokens(values);
      if |t| != arity then Failure(MissingParameter)
      else
        match ParseAll(t, parse)
        case None => Failure(InvalidOptionValue)
        case Some(xs) => Success(xs)
  }

  // ---------------------------------------------------------------------
  // The five validators; v is the value already stored for the option
  // ---------------------------------------------------------------------

  function ValidateVector2i(v: Option<Vector2<int32>>, values: seq<string>): (r: Result<Vector2<int32>, OptionError>)
    ensures r.Success? ==> var t := ValueTokens(values);
      |t| == 2 && ParseInt32(t[0]) == Some(r.value.x) && ParseInt32(t[1]) == Some(r.value.y)
    ensures r.Failure? ==> ParseFixed(v.Some?, values, 2, ParseInt32) == Failure(r.error)
  {
    match ParseFixed(v.Some?, values, 2, ParseInt32)
    case Failure(e) => Failure(e)
    case Success(n) => Success(Vector2(n[0], n[1]))
  }

  function ValidateVector2<F>(v: Option<Vector2<F>>, values: seq<string>, parseReal: string -> Option<F>)
    : (r: Result<Vector2<F>, OptionError>)
    ensures r.Success? ==> var t := ValueTokens(values);
      |t| == 2 && parseReal(t[0]) == Some(r.value.x) && parseReal(t[1]) == Some(r.value.y)
    ensures r.Failure? ==> ParseFixed(v.Some?, values, 2, parseReal) == Failure(r.error)
  {
    match ParseFixed(v.Some?, values, 2, parseReal)
    case Failure(e) => Failure(e)
    case Success(n) => Success(Vector2(n[0], n[1]))
  }

  function ValidateBBox2i(v: Option<BBox2<int32>>, values: seq<string>): (r: Result<BBox2<int32>, OptionError>)
    ensures r.Success? ==> var t := ValueTokens(values);
      && |t| == 4
      && ParseInt32(t[0]) == Some(r.value.min.x) && ParseInt32(t[1]) == Some(r.value.min.y)
      && ParseInt32(t[2]) == Some(r.value.max.x) && ParseInt32(t[3]) == Some(r.value.max.y)
    ensures r.Failure? ==> ParseFixed(v.Some?, values, 4, ParseInt32) == Failure(r.error)
  {
    match ParseFixed(v.Some?, values, 4, ParseInt32)
    case Failure(e) => Failure(e)
    case Success(n) => Success(BBox2(Vector2(n[0], n[1]), Vector2(n[2], n[3])))
  }

  function ValidateBBox2<F>(v: Option<BBox2<F>>, values: seq<string>, parseReal: string -> Option<F>)
    : (r: Result<BBox2<F>, OptionError>)
    ensures r.Success? ==> var t := ValueTokens(values);
      && |t| == 4
      && parseReal(t[0]) == Some(r.value.min.x) && parseReal(t[1]) == Some(r.value.min.y)
      && parseReal(t[2]) == Some(r.value.max.x) && parseReal(t[3]) == Some(r.value.max.y)
    ensures r.Failure? ==> ParseFixed(v.Some?, values, 4, parseReal) == Failure(r.error)
  {
    match ParseFixed(v.Some?, values, 4, parseReal)
    case Failure(e) => Failure(e)
    case Success(n) => Success(BBox2(Vector2(n[0], n[1]), Vector2(n[2], n[3])))
  }

  function ValidateBBox3<F>(v: Option<BBox3<F>>, values: seq<string>, parseReal: string -> Option<F>)
    : (r: Result<BBox3<F>, OptionError>)
    ensures r.Success? ==> var t := ValueTokens(values);
      && |t| == 6
      && parseReal(t[0]) == Some(r.value.min.x) && parseReal(t[1]) == Some(r.value.min.y)
      && parseReal(t[2]) == Some(r.value.min.z)
      && parseReal(t[3]) == Some(r.value.max.x) && parseReal(t[4]) == Some(r.value.max.y)
      && parseReal(t[5]) == Some(r.value.max.z)
    ensures r.Failure? ==> ParseFixed(v.Some?, values, 6, parseReal) == Failure(r.error)
  {
    match ParseFixed(v.Some?, values, 6, parseReal)
    case Failure(e) => Failure(e)
    case Success(n) => Success(BBox3(Vector3(n[0], n[1], n[2]), Vector3(n[3], n[4], n[5])))
  }

  // ---------------------------------------------------------------------
  // The value-arity factories
  // ---------------------------------------------------------------------

  /** The value types that have a custom value semantic. */
  datatype ValueType = Vector2iType | Vector2Type | BBox2iType | BBox2Type | BBox3Type

  /**
   * How many tokens the value semantic that value() builds for the type
   * ingests: two coordinates per point, so 2 for a point and more for a box.
   */
  function TokenCount(t: ValueType): (n: nat)
    ensures n % 2 == 0 && 2 <= n <= 6
    ensures n == 2 <==> t.Vector2iType? || t.Vector2Type?
  {
    match t
    case Vector2iType => 2
    case Vector2Type => 2
    case BBox2iType => 4
    case BBox2Type => 4
    case BBox3Type => 6
  }

  // ---------------------------------------------------------------------
  // Properties
  // ---------------------------------------------------------------------

  /** A number written without commas or spaces is a single piece. */
  predicate Piece(s: string) {
    s != [] && NoneIn(s, IsCommaOrSpace)
  }

  /**
   * Separate tokens and one token holding all the pieces, joined by a run
   * of commas and spaces, yield the same pieces: the pieces themselves.
   */
  lemma SeparateOrJoined(pieces: seq<string>, sep: string)
    requires |pieces| >= 1 && forall i :: 0 <= i < |pieces| ==> Piece(pieces[i])
    requires sep != [] && All(sep, IsCommaOrSpace)
    ensures ValueTokens(pieces) == pieces
    ensures ValueTokens([Join(pieces, sep)]) == pieces
  {
    SplitJoin(pieces, " ", IsCommaOrSpace);
    SplitJoin(pieces, sep, IsCommaOrSpace);
  }

  /**
   * One token of an occurrence as the user typed it: one or more pieces,
   * with a run of commas and spaces of its own in every gap ("1,2" is
   * Group(["1", "2"], [","]), "3" is Group(["3"], [])).
   */
  datatype Group = Group(pieces: seq<string>, seps: seq<string>)

  predicate WellFormed(g: Group) {
    && |g.pieces| == |g.seps| + 1
    && (forall k :: 0 <= k < |g.pieces| ==> Piece(g.pieces[k]))
    && (forall k :: 0 <= k < |g.seps| ==> g.seps[k] != [] && All(g.seps[k], IsCommaOrSpace))
  }

  predicate AllWellFormed(groups: seq<Group>) {
    forall i :: 0 <= i < |groups| ==> WellFormed(groups[i])
  }

  /** The tokens the groups are typed as. */
  function GroupTokens(groups: seq<Group>): (tokens: seq<string>)
    requires AllWellFormed(groups)
    ensures |tokens| == |groups|
    ensures forall i :: 0 <= i < |groups| ==> tokens[i] == JoinWith(groups[i].pieces, groups[i].seps)
  {
    seq(|groups|, i requires 0 <= i < |groups| && WellFormed(groups[i]) =>
      JoinWith(groups[i].pieces, groups[i].seps))
  }

  /** The pieces of all the groups, in order. */
  function AllPieces(groups: seq<Group>): seq<string> {
    if groups == [] then [] else groups[0].pieces + AllPieces(groups[1..])
  }

  /** The gaps of the joined tokens: each group's own runs, a space between groups. */
  function AllGaps(groups: seq<Group>): seq<string> {
    if |groups| <= 1 then (if groups == [] then [] else groups[0].seps)
    else groups[0].seps + [" "] + AllGaps(groups[1..])
  }

  /** The pieces and gaps of well-formed groups are well formed again. */
  lemma {:induction false} PiecesAndGaps(groups: seq<Group>)
    requires groups != [] && AllWellFormed(groups)
    ensures |AllPieces(groups)| == |AllGaps(groups)| + 1
    ensures forall k :: 0 <= k < |AllPieces(groups)| ==> Piece(AllPieces(groups)[k])
    ensures forall k :: 0 <= k < |AllGaps(groups)| ==>
              AllGaps(groups)[k] != [] && All(AllGaps(groups)[k], IsCommaOrSpace)
  {
    var g := groups[0];
    assert WellFormed(g);
    if |groups| > 1 {
      var rest := groups[1..];
      assert AllWellFormed(rest) by {
        assert forall i :: 0 <= i < |rest| ==> rest[i] == groups[i + 1];
      }
      PiecesAndGaps(rest);
      assert All(" ", IsCommaOrSpace);
    } else {
      assert AllPieces(groups) == g.pieces + [];
    }
  }

  /** Joining the tokens with a space is joining all the pieces at all the gaps. */
  lemma {:induction false} JoinGroups(groups: seq<Group>)
    requires groups != [] && AllWellFormed(groups)
    ensures |AllPieces(groups)| == |AllGaps(groups)| + 1
    ensures Join(GroupTokens(groups), " ") == JoinWith(AllPieces(groups), AllGaps(groups))
  {
    PiecesAndGaps(groups);
    var g := groups[0];
    assert WellFormed(g);
    var tokens := GroupTokens(groups);
    if |groups| == 1 {
      assert AllPieces(groups) == g.pieces + [] == g.pieces;
      assert AllGaps(groups) == g.seps;
      assert Join(tokens, " ") == tokens[0] == JoinWith(g.pieces, g.seps);
    } else {
      var rest := groups[1..];
      assert AllWellFormed(rest) by {
        assert forall i :: 0 <= i < |rest| ==> rest[i] == groups[i + 1];
      }
      assert tokens[1..] == GroupTokens(rest);
      JoinGroups(rest);
      assert Join(tokens, " ") == tokens[0] + " " + Join(GroupTokens(rest), " ");
      JoinWithAppend(g.pieces, g.seps, " ", AllPieces(rest), AllGaps(rest));
    }
  }

  /**
   * However the pieces are grouped into tokens, and whatever runs of
   * commas and spaces separate them inside a token, the occurrence yields
   * the same pieces: ["1,2", "3"], ["1", "2 3"] and ["1", "2", "3"] are
   * all 1, 2, 3.
   */
  lemma DelimitersInterchangeable(groups: seq<Group>)
    requires groups != [] && AllWellFormed(groups)
    ensures ValueTokens(GroupTokens(groups)) == AllPieces(groups)
  {
    PiecesAndGaps(groups);
    JoinGroups(groups);
    SplitJoinWith(AllPieces(groups), AllGaps(groups), IsCommaOrSpace);
  }

  /** "1,2" then "3": two tokens, the first of two pieces. */
  function MixedGroups(): seq<Group> {
    [Group(["1", "2"], [","]), Group(["3"], [])]
  }

  /** A mixed example: "1,2" and "3" give three pieces. */
  lemma MixedTokens()
    ensures ValueTokens(["1,2", "3"]) == ["1", "2", "3"]
  {
    MixedWellFormed();
    MixedAsTyped();
    MixedPieces();
    DelimitersInterchangeable(MixedGroups());
  }

  lemma MixedWellFormed()
    ensures AllWellFormed(MixedGroups())
  {
    assert All(",", IsCommaOrSpace);
    assert WellFormed(MixedGroups()[0]);
    assert WellFormed(MixedGroups()[1]);
  }

  lemma MixedAsTyped()
    requires AllWellFormed(MixedGroups())
    ensures GroupTokens(MixedGroups()) == ["1,2", "3"]
  {
    var t := GroupTokens(MixedGroups());
    assert JoinWith(["1", "2"], [","]) == "1" + "," + JoinWith(["2"], []);
    assert t[0] == "1,2" && t[1] == "3";
  }

  lemma MixedPieces()
    ensures AllPieces(MixedGroups()) == ["1", "2", "3"]
  {
    var g := MixedGroups();
    assert g[1..][1..] == [];
    assert AllPieces(g[1..]) == ["3"] + [];
  }

  /**
   * When the pieces of an occurrence number arity and each converts, the
   * parse gives the converted numbers in the order of the pieces.
   */
  lemma ParsesInOrder<T>(values: seq<string>, arity: nat, parse: string -> Option<T>, nums: seq<T>)
    requires |ValueTokens(values)| == |nums| == arity
    requires forall i :: 0 <= i < arity ==> parse(ValueTokens(values)[i]) == Some(nums[i])
    ensures ParseFixed(false, values, arity, parse) == Success(nums)
  {
    var r := ParseFixed(false, values, arity, parse);
    assert r.Success?;
    assert |r.value| == arity;
    assert forall i :: 0 <= i < arity ==> r.value[i] == nums[i];
    assert r.value == nums;
  }

  /**
   * The validator of each value type accepts exactly as many numbers as
   * the factory of that type declares: given that many numbers, one token
   * each or all in one comma-separated token, the parse succeeds with
   * them, in order.
   */
  lemma FactoryArityAccepted<T>(t: ValueType, pieces: seq<string>, nums: seq<T>, parse: string -> Option<T>)
    requires |pieces| == |nums| == TokenCount(t)
    requires forall i :: 0 <= i < |pieces| ==> Piece(pieces[i]) && parse(pieces[i]) == Some(nums[i])
    ensures ParseFixed(false, pieces, TokenCount(t), parse) == Success(nums)
    ensures ParseFixed(false, [Join(pieces, ",")], TokenCount(t), parse) == Success(nums)
  {
    SeparateOrJoined(pieces, ",");
    ParsesInOrder(pieces, TokenCount(t), parse, nums);
    ParsesInOrder([Join(pieces, ",")], TokenCount(t), parse, nums);
  }

  /**
   * The number of tokens each factory declares is the number of pieces
   * the validator of the same type accepts.
   */
  lemma FactoryMatchesValidator<F>(values: seq<string>, parseReal: string -> Option<F>)
    ensures ValidateVector2i(None, values).Success? ==> |ValueTokens(values)| == TokenCount(Vector2iType)
    ensures ValidateVector2(None, values, parseReal).Success? ==> |ValueTokens(values)| == TokenCount(Vector2Type)
    ensures ValidateBBox2i(None, values).Success? ==> |ValueTokens(values)| == TokenCount(BBox2iType)
    ensures ValidateBBox2(None, values, parseReal).Success? ==> |ValueTokens(values)| == TokenCount(BBox2Type)
    ensures ValidateBBox3(None, values, parseReal).Success? ==> |ValueTokens(values)| == TokenCount(BBox3Type)
  {
  }

  /** Any other number of pieces is refused as a missing parameter. */
  lemma WrongArityRefused<T>(t: ValueType, pieces: seq<string>, parse: string -> Option<T>)
    requires |pieces| >= 1 && |pieces| != TokenCount(t)
    requires forall i :: 0 <= i < |pieces| ==> Piece(pieces[i])
    ensures ParseFixed(false, pieces, TokenCount(t), parse) == Failure(MissingParameter)
    ensures ParseFixed(false, [Join(pieces, ",")], TokenCount(t), parse) == Failure(MissingParameter)
  {
    SeparateOrJoined(pieces, ",");
  }

  /**
   * One piece that does not convert spoils the whole occurrence, whatever
   * the others are: there is no partially filled value.
   */
  lemma OneBadPieceRefused<T>(values: seq<string>, arity: nat, parse: string -> Option<T>, i: nat)
    requires |ValueTokens(values)| == arity && i < arity
    requires parse(ValueTokens(values)[i]).None?
    ensures ParseFixed(false, values, arity, parse) == Failure(InvalidOptionValue)
  {
  }

  /** A box's first two numbers are its first corner, the last two its second. */
  lemma BoxCornersInOrder(pieces: seq<string>, nums: seq<int32>)
    requires |pieces| == |nums| == 4
    requires forall i :: 0 <= i < 4 ==> Piece(pieces[i]) && ParseInt32(pieces[i]) == Some(nums[i])
    ensures ValidateBBox2i(None, [Join(pieces, ",")])
         == Success(BBox2(Vector2(nums[0], nums[1]), Vector2(nums[2], nums[3])))
  {
    var values := [Join(pieces, ",")];
    assert ValueTokens(values) == pieces by {
      SeparateOrJoined(pieces, ",");
    }
    ParsesInOrder(values, 4, ParseInt32, nums);
    BoxOfNumbers(values, nums);
  }

  /** A box is built from the parsed numbers, first corner first. */
  lemma BoxOfNumbers(values: seq<string>, nums: seq<int32>)
    requires |nums| == 4
    ensures ParseFixed(false, values, 4, ParseInt32) == Success(nums) ==>
      ValidateBBox2i(None, values) == Success(BBox2(Vector2(nums[0], nums[1]), Vector2(nums[2], nums[3])))
  {
  }

  /** A second occurrence of the option is refused before anything is parsed. */
  lemma SecondOccurrenceRefused<F>(v: BBox3<F>, values: seq<string>, parseReal: string -> Option<F>)
    ensures ValidateBBox3(Some(v), values, parseReal) == Failure(MultipleOccurrences)
  {
  }

  // ---------------------------------------------------------------------
  // Examples
  // ---------------------------------------------------------------------

  lemma SmallNumbers()
    ensures ParseInt32("0") == Some(0) && ParseInt32("1") == Some(1) && ParseInt32("2") == Some(2)
    ensures ParseInt32("10") == Some(10)
  {
    ParseShowInt(0);
    ParseShowInt(1);
    ParseShowInt(2);
    ParseShowInt(10);
    assert ShowInt(10) == "10";
  }

  lemma SmallPieces()
    ensures Piece("0") && Piece("1") && Piece("2") && Piece("3") && Piece("10")
    ensures Piece("a") && Piece("b")
  {
  }

  /** "1,2" and "1" "2" both give the point (1, 2). */
  lemma PointExamples()
    ensures ValidateVector2i(None, ["1,2"]) == Success(Vector2(1, 2))
    ensures ValidateVector2i(None, ["1", "2"]) == Success(Vector2(1, 2))
  {
    assert Join(["1", "2"], ",") == "1,2" by {
      JoinTwo("1", "2", ",");
    }
    assert ParseInt32("1") == Some(1) && ParseInt32("2") == Some(2) by {
      SmallNumbers();
    }
    assert Piece("1") && Piece("2");
    FactoryArityAccepted(Vector2iType, ["1", "2"], [1 as int32, 2], ParseInt32);
  }

  /** "0,0,10,10" is the box from (0, 0) to (10, 10). */
  lemma BoxExample()
    ensures ValidateBBox2i(None, ["0,0,10,10"]) == Success(BBox2(Vector2(0, 0), Vector2(10, 10)))
  {
    var ps := ["0", "0", "10", "10"];
    var nums: seq<int32> := [0, 0, 10, 10];
    assert Join(ps, ",") == "0,0,10,10" by {
      assert Join(ps[2..], ",") == "10,10";
      assert Join(ps[1..], ",") == "0,10,10";
    }
    forall i | 0 <= i < 4
      ensures Piece(ps[i]) && ParseInt32(ps[i]) == Some(nums[i])
    {
      SmallNumbers();
      SmallPieces();
    }
    BoxCornersInOrder(ps, nums);
  }

  /** Three numbers for a point are a missing parameter. */
  lemma TooManyExample()
    ensures ValidateVector2i(None, ["1,2,3"]) == Failure(MissingParameter)
  {
    SmallPieces();
    var ps := ["1", "2", "3"];
    assert Join(ps[1..], ",") == "2,3";
    assert Join(ps, ",") == "1,2,3";
    WrongArityRefused(Vector2iType, ps, ParseInt32);
  }

  /** Letters are an invalid value. */
  lemma LettersExample()
    ensures ValidateVector2i(None, ["a,b"]) == Failure(InvalidOptionValue)
  {
    LetterTokens();
    assert ParseInt32("a") == None by {
      assert !IsDigit("a"[0]);
    }
    OneBadPieceRefused(["a,b"], 2, ParseInt32, 0);
  }

  lemma LetterTokens()
    ensures ValueTokens(["a,b"]) == ["a", "b"]
  {
    assert Piece("a") && Piece("b");
    JoinTwo("a", "b", ",");
    assert "a" + "," + "b" == "a,b";
    SeparateOrJoined(["a", "b"], ",");
  }

  lemma JoinTwo(x: string, y: string, sep: string)
    ensures Join([x, y], sep) == x + sep + y
  {
    assert [x, y][1..] == [y];
  }
}
