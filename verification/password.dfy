/**
 * The password generator's rules: the length and complexity checks, the
 * assembly of one character from each selected character set followed by
 * characters from their union, the in-place shuffle, and the box the
 * password is framed in. The random choices are caller-supplied draws.
 */
module Password {

  const Lowercase: string := "abcdefghijklmnopqrstuvwxyz"
  const Uppercase: string := "ABCDEFGHIJKLMNOPQRSTUVWXYZ"
  const Digits: string := "0123456789"
  /** Python's `string.punctuation`. */
  const Punctuation: string := "!\"#$%&'()*+,-./:;<=>?@[\\]^_`{|}~"

  /** The keys of the `sets` dictionary. */
  datatype CharSet = LowerSet | UpperSet | DigitSet | SymbolSet

  function Chars(s: CharSet): (r: string)
    ensures |r| > 0
  {
    match s
    case LowerSet => Lowercase
    case UpperSet => Uppercase
    case DigitSet => Digits
    case SymbolSet => Punctuation
  }

  /**
   * The `complexity` dictionary: levels 1, 2 and 3 select two, three and
   * four different sets, always starting with lower and upper case; any
   * other level is not a key and selects nothing.
   */
  function Selected(level: int): (r: seq<CharSet>)
    ensures r == [] <==> !(1 <= level <= 3)
    ensures 1 <= level <= 3 ==> |r| == level + 1 && r[..2] == [LowerSet, UpperSet]
    ensures forall p, q | 0 <= p < q < |r| :: r[p] != r[q]
  {
    if level == 1 then [LowerSet, UpperSet]
    else if level == 2 then [LowerSet, UpperSet, DigitSet]
    else if level == 3 then [LowerSet, UpperSet, DigitSet, SymbolSet]
    else []
  }

  /** A higher level keeps every set of a lower one, in the same order, and adds more. */
  lemma SelectedNested(level: int, higher: int)
    requires 1 <= level < higher <= 3
    ensures Selected(level) < Selected(higher)
  {
  }

  /** Digits are selected from level 2 on, punctuation only at level 3. */
  lemma SelectionByLevel(level: int)
    ensures DigitSet in Selected(level) <==> level == 2 || level == 3
    ensures SymbolSet in Selected(level) <==> level == 3
  {
  }

  /** `all_chars`: the characters of the selected sets, joined in order. */
  function Alphabet(sets: seq<CharSet>): (r: string)
    ensures |sets| > 0 ==> |r| > 0
  {
    if |sets| == 0 then [] else Chars(sets[0]) + Alphabet(sets[1..])
  }

  /** The alphabet holds the characters of every selected set, and nothing else. */
  lemma {:induction false} AlphabetSpec(sets: seq<CharSet>)
    ensures forall k, c | 0 <= k < |sets| && c in Chars(sets[k]) :: c in Alphabet(sets)
    ensures forall c | c in Alphabet(sets) :: exists k | 0 <= k < |sets| :: c in Chars(sets[k])
  {
    if |sets| > 0 {
      AlphabetSpec(sets[1..]);
      forall c | c in Alphabet(sets)
        ensures exists k | 0 <= k < |sets| :: c in Chars(sets[k])
      {
        if c !in Chars(sets[0]) {
          var k :| 0 <= k < |sets[1..]| && c in Chars(sets[1..][k]);
          assert c in Chars(sets[k + 1]);
        }
      }
      forall k, c | 0 <= k < |sets| && c in Chars(sets[k])
        ensures c in Alphabet(sets)
      {
        if k > 0 {
          assert sets[k] == sets[1..][k - 1];
        }
      }
    }
  }

  /** `secrets.choice(s)`, with the draw reduced to an index of `s`. */
  function Pick(s: string, d: nat): (c: char)
    requires |s| > 0
    ensures c in s
  {
    s[d % |s|]
  }

  /**
   * The list before shuffling: position `i` below the number of sets holds a
   * character of set `i`, every later position a character of the alphabet.
   */
  function Assembled(length: nat, sets: seq<CharSet>, draw: nat -> nat): (r: string)
    requires |sets| > 0
    ensures |r| == length
  {
    var all := Alphabet(sets);
    seq(length, i requires 0 <= i < length =>
      if i < |sets| then Pick(Chars(sets[i]), draw(i)) else Pick(all, draw(i)))
  }

  /** The assembled list draws each leading position from its own set, and every position from the alphabet. */
  lemma {:induction false} AssembledSpec(length: nat, sets: seq<CharSet>, draw: nat -> nat)
    requires |sets| > 0
    ensures forall k | 0 <= k < |sets| && k < length :: Assembled(length, sets, draw)[k] in Chars(sets[k])
    ensures forall i | 0 <= i < length :: Assembled(length, sets, draw)[i] in Alphabet(sets)
  {
    var r := Assembled(length, sets, draw);
    forall i | 0 <= i < length
      ensures i < |sets| ==> r[i] in Chars(sets[i])
      ensures r[i] in Alphabet(sets)
    {
      if i < |sets| {
        assert r[i] == Pick(Chars(sets[i]), draw(i));
        InAlphabet(sets, i, r[i]);
      } else {
        assert r[i] == Pick(Alphabet(sets), draw(i));
      }
    }
  }

  /** A character of one selected set is a character of the alphabet. */
  lemma InAlphabet(sets: seq<CharSet>, k: nat, c: char)
    requires k < |sets| && c in Chars(sets[k])
    ensures c in Alphabet(sets)
  {
    AlphabetSpec(sets);
  }

  /** Exchanging two elements: `x[i], x[j] = x[j], x[i]`. */
  function Swap<T>(s: seq<T>, i: nat, j: nat): (r: seq<T>)
    requires i < |s| && j < |s|
    ensures |r| == |s|
  {
    s[i := s[j]][j := s[i]]
  }

  lemma SwapPermutes<T>(s: seq<T>, i: nat, j: nat)
    requires i < |s| && j < |s|
    ensures multiset(Swap(s, i, j)) == multiset(s)
  {
  }

  /**
   * Python's `shuffle` from position `i` down: position `i` is exchanged with
   * a drawn position at or below it, then the positions below are shuffled.
   */
  function ShuffleFrom<T>(s: seq<T>, i: nat, draw: nat -> nat): (r: seq<T>)
    requires i < |s|
    ensures |r| == |s|
    decreases i
  {
    if i == 0 then s else ShuffleFrom(Swap(s, i, draw(i) % (i + 1)), i - 1, draw)
  }

  /** `shuffle(x)`: positions `len(x) - 1` down to 1. */
  function Shuffle<T>(s: seq<T>, draw: nat -> nat): (r: seq<T>)
    ensures |r| == |s|
  {
    if |s| == 0 then s else ShuffleFrom(s, |s| - 1, draw)
  }

  /** Every step exchanges two elements, so the shuffle is a permutation. */
  lemma {:induction false} ShuffleFromPermutes<T>(s: seq<T>, i: nat, draw: nat -> nat)
    requires i < |s|
    ensures multiset(ShuffleFrom(s, i, draw)) == multiset(s)
    decreases i
  {
    if i > 0 {
      var j := draw(i) % (i + 1);
      SwapPermutes(s, i, j);
      ShuffleFromPermutes(Swap(s, i, j), i - 1, draw);
    }
  }

  lemma ShufflePermutes<T>(s: seq<T>, draw: nat -> nat)
    ensures multiset(Shuffle(s, draw)) == multiset(s)
  {
    if |s| > 0 {
      ShuffleFromPermutes(s, |s| - 1, draw);
    }
  }

  /** `secrets.SystemRandom().shuffle(password)`, in place. */
  method ShuffleInPlace<T>(a: array<T>, draw: nat -> nat)
    modifies a
    ensures a[..] == Shuffle(old(a[..]), draw)
  {
    if a.Length == 0 {
      return;
    }
    var i := a.Length - 1;
    while i > 0
      invariant 0 <= i < a.Length
      invariant ShuffleFrom(a[..], i, draw) == Shuffle(old(a[..]), draw)
    {
      var j := draw(i) % (i + 1);
      ghost var before := a[..];
      a[i], a[j] := a[j], a[i];
      assert a[..] == Swap(before, i, j);
      i := i - 1;
    }
  }

  /** `'═' * n`. */
  function Bar(n: nat): (r: string)
    ensures |r| == n && forall k | 0 <= k < n :: r[k] == '═'
  {
    seq(n, k requires 0 <= k < n => '═')
  }

  /** The three-line frame around the password (the terminal colour codes are left out). */
  function Box(p: string): string
  {
    "╔" + Bar(|p| + 4) + "╗\n"
    + "║ ★ " + p + " ★ ║\n"
    + "╚" + Bar(|p| + 4) + "╝"
  }

  /**
   * The top border is `len(password) + 4` bars between its corners, the
   * password is read back from the middle line, and the bottom border
   * matches the top one.
   */
  lemma BoxLayout(p: string)
    ensures var b := Box(p);
            && |b| == 3 * |p| + 22
            && b[..|p| + 7] == "╔" + Bar(|p| + 4) + "╗\n"
            && b[|p| + 11..2 * |p| + 11] == p
            && b[2 * |p| + 16..] == "╚" + Bar(|p| + 4) + "╝"
  {
    var top := "╔" + Bar(|p| + 4) + "╗\n";
    var middle := "║ ★ " + p + " ★ ║\n";
    var bottom := "╚" + Bar(|p| + 4) + "╝";
    assert Box(p) == top + middle + bottom;
    assert (top + middle + bottom)[|p| + 11..2 * |p| + 11] == middle[4..|p| + 4];
    assert middle[4..|p| + 4] == p;
  }

  const TooShort: string := "❌ Password length must be at least 4 characters."
  const InvalidLevel: string := "❌ Invalid complexity level."
  const OutOfRange: string := "❌ Length must be between 4-64."

  /** What `generate_password` returns: an error text, or the password in its frame. */
  datatype Outcome = Failure(message: string) | Generated(password: string, boxed: string)

  /** The password `generate_password` produces on valid arguments. */
  function Produced(length: nat, sets: seq<CharSet>, draw: nat -> nat, shuffleDraw: nat -> nat): (r: string)
    requires |sets| > 0
  {
    Shuffle(Assembled(length, sets, draw), shuffleDraw)
  }

  /**
   * A produced password has exactly `length` characters, is a
   * rearrangement of the assembled list, contains a character of every
   * selected set, and draws every character from `all_chars`.
   */
  lemma {:induction false} ProducedSpec(length: nat, sets: seq<CharSet>, draw: nat -> nat, shuffleDraw: nat -> nat)
    requires 0 < |sets| <= length
    ensures var p := Produced(length, sets, draw, shuffleDraw);
            && |p| == length
            && multiset(p) == multiset(Assembled(length, sets, draw))
            && (forall k | 0 <= k < |sets| :: exists i | 0 <= i < |p| :: p[i] in Chars(sets[k]))
            && (forall i | 0 <= i < |p| :: p[i] in Alphabet(sets))
  {
    var q := Assembled(length, sets, draw);
    var p := Produced(length, sets, draw, shuffleDraw);
    ShufflePermutes(q, shuffleDraw);
    AssembledSpec(length, sets, draw);
    RearrangedCovers(p, q, sets);
  }

  /**
   * A rearrangement of a list whose first elements come one from each set
   * and whose elements all come from the alphabet keeps both properties.
   */
  lemma RearrangedCovers(p: string, q: string, sets: seq<CharSet>)
    requires |sets| <= |q| && multiset(p) == multiset(q)
    requires forall k | 0 <= k < |sets| :: q[k] in Chars(sets[k])
    requires forall j | 0 <= j < |q| :: q[j] in Alphabet(sets)
    ensures forall k | 0 <= k < |sets| :: exists i | 0 <= i < |p| :: p[i] in Chars(sets[k])
    ensures forall i | 0 <= i < |p| :: p[i] in Alphabet(sets)
  {
    SameMembers(p, q);
    forall k | 0 <= k < |sets|
      ensures exists i | 0 <= i < |p| :: p[i] in Chars(sets[k])
    {
      assert q[k] in q;
      var i :| 0 <= i < |p| && p[i] == q[k];
    }
    forall i | 0 <= i < |p|
      ensures p[i] in Alphabet(sets)
    {
      assert p[i] in p;
      var j :| 0 <= j < |q| && q[j] == p[i];
    }
  }

  /** Two rearrangements of one another hold the same elements. */
  lemma SameMembers<T>(p: seq<T>, q: seq<T>)
    requires multiset(p) == multiset(q)
    ensures forall x :: x in p <==> x in q
  {
    forall x
      ensures x in p <==> x in q
    {
      assert x in p <==> x in multiset(p);
      assert x in q <==> x in multiset(q);
    }
  }

  /** `generate_password(length, complexity_level)`. */
  method Generate(length: int, level: int, draw: nat -> nat, shuffleDraw: nat -> nat)
    returns (r: Outcome)
    ensures length < 4 ==> r == Failure(TooShort)
    ensures length >= 4 && !(1 <= level <= 3) ==> r == Failure(InvalidLevel)
    ensures length >= 4 && 1 <= level <= 3 ==>
              var p := Produced(length, Selected(level), draw, shuffleDraw);
              r == Generated(p, Box(p))
  {
    if length < 4 {
      return Failure(TooShort);
    }
    if !(1 <= level <= 3) {
      return Failure(InvalidLevel);
    }
    var initial := Assembled(length, Selected(level), draw);
    var password := new char[length](i requires 0 <= i < length => initial[i]);
    assert password[..] == initial;
    ShuffleInPlace(password, shuffleDraw);
    var p := password[..];
    r := Generated(p, Box(p));
  }

  /** `main`: a length outside 4..64 is refused before anything is generated. */
  method Run(length: int, level: int, draw: nat -> nat, shuffleDraw: nat -> nat)
    returns (r: Outcome)
    ensures !(4 <= length <= 64) ==> r == Failure(OutOfRange)
    ensures 4 <= length <= 64 && !(1 <= level <= 3) ==> r == Failure(InvalidLevel)
    ensures 4 <= length <= 64 && 1 <= level <= 3 ==>
              r.Generated? && |r.password| == length
              && r.password == Produced(length, Selected(level), draw, shuffleDraw)
  {
    if !(4 <= length <= 64) {
      return Failure(OutOfRange);
    }
    r := Generate(length, level, draw, shuffleDraw);
  }
}
