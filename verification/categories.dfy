/**
 * The closed list of business categories and the lookup from the string a
 * client sends to the category it names.
 */
module Categories {
  import opened Common

  /** The ten constants, in declaration order. */
  datatype Category =
    | KoreanFood | ChineseFood | JapaneseFood | WesternFood | Cafe
    | Bar | Convenience | Pharmacy | HairSalon | Gym

  /** The string each constant carries. */
  function Value(c: Category): string {
    match c
    case KoreanFood => "korean_food"
    case ChineseFood => "chinese_food"
    case JapaneseFood => "japanese_food"
    case WesternFood => "western_food"
    case Cafe => "cafe"
    case Bar => "bar"
    case Convenience => "convenience"
    case Pharmacy => "pharmacy"
    case HairSalon => "hair_salon"
    case Gym => "gym"
  }

  /** What `values()` enumerates. */
  const Declared: seq<Category> :=
    [KoreanFood, ChineseFood, JapaneseFood, WesternFood, Cafe,
     Bar, Convenience, Pharmacy, HairSalon, Gym]

  /** The accepted strings, in declaration order. */
  const AllowedValues: seq<string> := ValuesOf(Declared)

  /** The strings a list of constants carries, in the same order. */
  function ValuesOf(cs: seq<Category>): seq<string> {
    if cs == [] then [] else [Value(cs[0])] + ValuesOf(cs[1..])
  }

  /** `s` is the value of some constant. */
  predicate IsCategory(s: string) {
    exists c: Category :: Value(c) == s
  }

  /** The first constant of `cs` whose value equals `s`, as `filter(..).findFirst()` finds it. */
  function FindFirst(cs: seq<Category>, s: string): (r: Option<Category>)
    ensures r.Some? ==> r.value in cs && Value(r.value) == s
    ensures r.None? ==> forall i | 0 <= i < |cs| :: Value(cs[i]) != s
  {
    if cs == [] then None
    else if Value(cs[0]) == s then Some(cs[0])
    else FindFirst(cs[1..], s)
  }

  /** `Arrays.toString` of a list of strings: "[a, b, c]". */
  function Bracketed(xs: seq<string>): string {
    "[" + Joined(xs) + "]"
  }

  function Joined(xs: seq<string>): string
    decreases |xs|
  {
    if xs == [] then ""
    else if |xs| == 1 then xs[0]
    else xs[0] + ", " + Joined(xs[1..])
  }

  const InvalidPrefix := "Invalid category"

  /** The message of the IllegalArgumentException for a rejected string. */
  function InvalidMessage(s: string): (m: string)
    ensures |InvalidPrefix| <= |m| && m[..|InvalidPrefix|] == InvalidPrefix
  {
    var detail := ": '" + s + "'. Allowed values: " + Bracketed(AllowedValues);
    assert (InvalidPrefix + detail)[..|InvalidPrefix|] == InvalidPrefix;
    InvalidPrefix + detail
  }

  /** The constant a string names, if any: the stream search of `fromValue`. */
  function Lookup(s: string): (r: Option<Category>)
    ensures r.Some? <==> IsCategory(s)
    ensures r.Some? ==> Value(r.value) == s
  {
    var found := FindFirst(Declared, s);
    if found.Some? then found
    else
      assert !IsCategory(s) by {
        Enumerated();
        forall c: Category ensures Value(c) != s {
          assert c in Declared;
          var i :| 0 <= i < |Declared| && Declared[i] == c;
          assert Value(Declared[i]) != s;
        }
      }
      found
  }

  /**
   * `Category.fromValue`: exact, case-sensitive string equality against
   * the declared values; anything else is an argument error.
   */
  function FromValue(s: string): (r: Result<Category, string>)
    ensures r.Success? <==> IsCategory(s)
    ensures r.Success? ==> Value(r.value) == s
    ensures r.Failure? ==> r.error == InvalidMessage(s)
  {
    match Lookup(s)
    case Some(c) => Success(c)
    case None => Failure(InvalidMessage(s))
  }

  /** The ten values are pairwise distinct. */
  lemma ValuesDistinct()
    ensures forall c1: Category, c2: Category :: Value(c1) == Value(c2) ==> c1 == c2
  {
  }

  /** `values()` lists every constant exactly once. */
  lemma AllDeclared()
    ensures |Declared| == 10
    ensures forall i, j | 0 <= i < j < |Declared| :: Declared[i] != Declared[j]
    ensures forall c: Category :: c in Declared
  {
    Enumerated();
  }

  /** The allowed values quoted in the error message are the constants' strings, in order. */
  lemma AllowedValuesMatch()
    ensures |AllowedValues| == |Declared|
    ensures forall i | 0 <= i < |Declared| :: AllowedValues[i] == Value(Declared[i])
  {
    ValuesOfPointwise(Declared);
  }

  /** `ValuesOf` keeps the length and maps each position to its constant's string. */
  lemma {:induction false} ValuesOfPointwise(cs: seq<Category>)
    ensures |ValuesOf(cs)| == |cs|
    ensures forall i | 0 <= i < |cs| :: ValuesOf(cs)[i] == Value(cs[i])
  {
    if cs != [] {
      ValuesOfPointwise(cs[1..]);
    }
  }

  /** A string is accepted exactly when it is one of the allowed values. */
  lemma AcceptedAreAllowed(s: string)
    ensures FromValue(s).Success? <==> s in AllowedValues
  {
    Enumerated();
    AllowedValuesMatch();
    if s in AllowedValues {
      var i :| 0 <= i < |AllowedValues| && AllowedValues[i] == s;
      assert Value(Declared[i]) == s;
    }
  }

  lemma Enumerated()
    ensures forall c: Category :: c in Declared
  {
    forall c: Category ensures c in Declared {
      match c
      case KoreanFood => assert Declared[0] == c;
      case ChineseFood => assert Declared[1] == c;
      case JapaneseFood => assert Declared[2] == c;
      case WesternFood => assert Declared[3] == c;
      case Cafe => assert Declared[4] == c;
      case Bar => assert Declared[5] == c;
      case Convenience => assert Declared[6] == c;
      case Pharmacy => assert Declared[7] == c;
      case HairSalon => assert Declared[8] == c;
      case Gym => assert Declared[9] == c;
    }
  }

  /** Looking up a constant's own value gives that constant back. */
  lemma {:induction false} RoundTrip(c: Category)
    ensures FromValue(Value(c)) == Success(c)
  {
    ValuesDistinct();
  }

  /** Every value starts with a lower-case letter. */
  lemma ValuesStartLowerCase(c: Category)
    ensures |Value(c)| > 0 && 'a' <= Value(c)[0] <= 'z'
  {
  }

  /** A string that does not start with a lower-case letter is rejected, since every value does. */
  lemma RejectsNonLowerCaseStart(s: string)
    requires s == [] || !('a' <= s[0] <= 'z')
    ensures FromValue(s).Failure?
  {
    if IsCategory(s) {
      var c :| Value(c) == s;
      ValuesStartLowerCase(c);
    }
  }

  /** Matching neither folds case nor trims blanks. */
  lemma ExactMatchOnly()
    ensures FromValue("cafe").Success?
    ensures FromValue("Cafe").Failure?
    ensures FromValue(" cafe").Failure?
    ensures FromValue("CAFE").Failure?
  {
    assert Value(Cafe) == "cafe";
    RejectsNonLowerCaseStart("Cafe");
    RejectsNonLowerCaseStart(" cafe");
    RejectsNonLowerCaseStart("CAFE");
  }
}
