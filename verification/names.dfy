/** Display names: `generateUsername` (server.js) and the fixed special-status label. */
module Names {
  import opened Js

  const Adjectives: seq<string> := ["Cool", "Brave", "Swift", "Wise", "Bold", "Clever", "Fierce", "Gentle"]
  const Nouns: seq<string> := ["Fox", "Wolf", "Eagle", "Tiger", "Bear", "Lion", "Hawk", "Deer"]

  /** The name the special-status grant puts on its holder. */
  const SpecialName: string := "Retardioo"

  /** The three `crypto.randomInt` results one call of `generateUsername` consumes, in call
      order: the numeric suffix (bound 10000), the adjective index and the noun index (bound 8). */
  datatype NameDraw = NameDraw(num: nat, adjective: nat, noun: nat)

  predicate InRange(d: NameDraw) {
    d.num < 10000 && d.adjective < |Adjectives| && d.noun < |Nouns|
  }

  predicate IsLetterOrDigit(c: char) {
    ('A' <= c <= 'Z') || ('a' <= c <= 'z') || IsDigit(c)
  }

  predicate AllLettersOrDigits(s: string) {
    forall i :: 0 <= i < |s| ==> IsLetterOrDigit(s[i])
  }

  /** The suffix `randomInt(10000).toString().padStart(4, '0')`: exactly four digits
      spelling `num`, leading zeros included. */
  function Suffix(num: nat): (r: string)
    requires num < 10000
    ensures |r| == 4 && AllDigits(r) && DigitsValue(r) == num
  {
    var digits := Decimal(num);
    assert Pow10(4) == 10000;
    DecimalLength(num, 4);
    var r := PadStart(digits, 4, '0');
    assert r == seq(4 - |digits|, _ => '0') + digits;
    LeadingZerosValue(4 - |digits|, digits);
    r
  }

  /** `generateUsername`: adjective, then noun, then the four-digit suffix. It looks at no
      other name, so nothing stops two members of one room from drawing the same name. */
  function GenerateUsername(d: NameDraw): (name: string)
    requires InRange(d)
    ensures AllLettersOrDigits(name)
    ensures name != SpecialName
  {
    var name := Adjectives[d.adjective] + Nouns[d.noun] + Suffix(d.num);
    GeneratedLetters(d);
    name
  }

  /** A generated name reads back as the draw that produced it: adjective, noun and four-digit
      suffix are recoverable, so distinct draws give distinct names. */
  lemma ParseGenerated(d: NameDraw)
    requires InRange(d)
    ensures ParseUsername(GenerateUsername(d)) == Some(d)
  {
    GeneratedParses(d);
  }

  lemma GeneratedInjective(d: NameDraw, d': NameDraw)
    requires InRange(d) && InRange(d') && GenerateUsername(d) == GenerateUsername(d')
    ensures d == d'
  {
    ParseGenerated(d);
    ParseGenerated(d');
  }

  lemma GeneratedParses(d: NameDraw)
    requires InRange(d)
    ensures ParseUsername(Adjectives[d.adjective] + Nouns[d.noun] + Suffix(d.num)) == Some(d)
  {
    var adjective := Adjectives[d.adjective];
    var noun := Nouns[d.noun];
    var suffix := Suffix(d.num);
    var name := adjective + noun + suffix;
    assert name == adjective + (noun + suffix);
    AdjectiveFound(d.adjective, noun + suffix);
    assert name[|adjective|..] == noun + suffix;
    NounFound(d.noun, suffix);
    assert (noun + suffix)[|noun|..] == suffix;
  }

  lemma GeneratedLetters(d: NameDraw)
    requires InRange(d)
    ensures var name := Adjectives[d.adjective] + Nouns[d.noun] + Suffix(d.num);
      AllLettersOrDigits(name) && IsDigit(name[|name| - 1]) && name != SpecialName
  {
    var adjective := Adjectives[d.adjective];
    var noun := Nouns[d.noun];
    var suffix := Suffix(d.num);
    var name := adjective + noun + suffix;
    WordsAreLetters();
    assert AllLettersOrDigits(adjective) && AllLettersOrDigits(noun);
    forall i | 0 <= i < |name|
      ensures IsLetterOrDigit(name[i])
    {
      if i < |adjective| {
        assert name[i] == adjective[i];
      } else if i < |adjective| + |noun| {
        assert name[i] == noun[i - |adjective|];
      } else {
        assert name[i] == suffix[i - |adjective| - |noun|];
      }
    }
    assert name[|name| - 1] == suffix[3];
    assert !IsDigit(SpecialName[|SpecialName| - 1]);
  }

  /** The first word of `words`, at or after `from`, that starts `s`. */
  function PrefixIndex(words: seq<string>, s: string, from: nat): (r: Option<nat>)
    ensures r.Some? ==> from <= r.value < |words| && words[r.value] <= s
    ensures r.Some? ==> forall i :: from <= i < r.value ==> !(words[i] <= s)
    decreases |words| - from
  {
    if from >= |words| then None
    else if words[from] <= s then Some(from)
    else PrefixIndex(words, s, from + 1)
  }

  /** Reads a generated name back into the draw that produced it. */
  function ParseUsername(name: string): Option<NameDraw> {
    match PrefixIndex(Adjectives, name, 0)
    case None => None
    case Some(a) =>
      var rest := name[|Adjectives[a]|..];
      match PrefixIndex(Nouns, rest, 0)
      case None => None
      case Some(n) =>
        var digits := rest[|Nouns[n]|..];
        if |digits| == 4 && AllDigits(digits) then Some(NameDraw(DigitsValue(digits), a, n)) else None
  }

  /** No two adjectives share their first two letters; no two nouns share their first letter. */
  lemma WordsDiffer()
    ensures forall i, j :: 0 <= i < j < |Adjectives| ==>
      |Adjectives[i]| >= 2 && |Adjectives[j]| >= 2 && (Adjectives[i][0] != Adjectives[j][0] || Adjectives[i][1] != Adjectives[j][1])
    ensures forall i, j :: 0 <= i < j < |Nouns| ==> |Nouns[i]| >= 1 && |Nouns[j]| >= 1 && Nouns[i][0] != Nouns[j][0]
  {
    forall i, j | 0 <= i < j < |Adjectives|
      ensures |Adjectives[i]| >= 2 && |Adjectives[j]| >= 2 && (Adjectives[i][0] != Adjectives[j][0] || Adjectives[i][1] != Adjectives[j][1])
    {
      assert i == 0 || i == 1 || i == 2 || i == 3 || i == 4 || i == 5 || i == 6;
      assert j == 1 || j == 2 || j == 3 || j == 4 || j == 5 || j == 6 || j == 7;
    }
    forall i, j | 0 <= i < j < |Nouns|
      ensures |Nouns[i]| >= 1 && |Nouns[j]| >= 1 && Nouns[i][0] != Nouns[j][0]
    {
      assert i == 0 || i == 1 || i == 2 || i == 3 || i == 4 || i == 5 || i == 6;
      assert j == 1 || j == 2 || j == 3 || j == 4 || j == 5 || j == 6 || j == 7;
    }
  }

  lemma WordsAreLetters()
    ensures forall i :: 0 <= i < |Adjectives| ==> AllLettersOrDigits(Adjectives[i])
    ensures forall i :: 0 <= i < |Nouns| ==> AllLettersOrDigits(Nouns[i])
  {
  }

  lemma AdjectiveFound(a: nat, rest: string)
    requires a < |Adjectives|
    ensures PrefixIndex(Adjectives, Adjectives[a] + rest, 0) == Some(a)
  {
    var s := Adjectives[a] + rest;
    WordsDiffer();
    forall i | 0 <= i < a
      ensures !(Adjectives[i] <= s)
    {
      assert s[0] == Adjectives[a][0] && s[1] == Adjectives[a][1];
    }
    assert Adjectives[a] <= s;
    PrefixFirst(Adjectives, s, 0, a);
  }

  lemma NounFound(n: nat, rest: string)
    requires n < |Nouns|
    ensures PrefixIndex(Nouns, Nouns[n] + rest, 0) == Some(n)
  {
    var s := Nouns[n] + rest;
    WordsDiffer();
    forall i | 0 <= i < n
      ensures !(Nouns[i] <= s)
    {
      assert s[0] == Nouns[n][0];
    }
    assert Nouns[n] <= s;
    PrefixFirst(Nouns, s, 0, n);
  }

  lemma {:induction false} PrefixFirst(words: seq<string>, s: string, from: nat, k: nat)
    requires from <= k < |words| && words[k] <= s
    requires forall i :: from <= i < k ==> !(words[i] <= s)
    ensures PrefixIndex(words, s, from) == Some(k)
    decreases k - from
  {
    if from < k {
      PrefixFirst(words, s, from + 1, k);
    }
  }
}
