/**
 The number printer of corpus/score.py: cardinals, ordinals and decimals as English
 words.  A reader is defined that recovers the number from the printed words, so no two
 numbers print alike.
 */
module NumberWords {
  import opened Arith
  import opened Text

  type Word = string

  const ONES: seq<Word> := [
    "zero", "one", "two", "three", "four", "five", "six", "seven", "eight", "nine", "ten", "eleven",
    "twelve", "thirteen", "fourteen", "fifteen", "sixteen", "seventeen", "eighteen", "nineteen"]

  const TENS: seq<Word> := ["_", "_", "twenty", "thirty", "forty", "fifty", "sixty", "seventy", "eighty", "ninety"]

  const BILLION: nat := 1_000_000_000
  const MILLION: nat := 1_000_000

  // ----- The printer, as text -----

  /** corpus/score.py:25-34. */
  function WordsText(n: nat): string {
    if n < 20 then ONES[n]
    else if n < 100 then TENS[n / 10] + (if n % 10 == 0 then "" else " " + ONES[n % 10])
    else if n < 1000 then ONES[n / 100] + " hundred" + (if n % 100 == 0 then "" else " " + WordsText(n % 100))
    else if n >= BILLION then ScaledText(n, BILLION, "billion")
    else if n >= MILLION then ScaledText(n, MILLION, "million")
    else ScaledText(n, 1000, "thousand")
  }

  function ScaledText(n: nat, size: nat, name: Word): string
    requires 1000 <= size <= n
    decreases n, 0
  {
    Smaller(n, size);
    WordsText(n / size) + " " + name + (if n % size == 0 then "" else " " + WordsText(n % size))
  }

  /** The irregular ordinals, and the rule for the rest. */
  function OrdinalWord(w: Word): Word {
    if w == "one" then "first"
    else if w == "two" then "second"
    else if w == "three" then "third"
    else if w == "five" then "fifth"
    else if w == "eight" then "eighth"
    else if w == "nine" then "ninth"
    else if w == "twelve" then "twelfth"
    else if w != "" && w[|w| - 1] == 'y' then w[..|w| - 1] + "ieth"
    else w + "th"
  }

  /** Position just after the last space, 0 when there is none. */
  function LastWordStart(text: string): (k: nat)
    ensures k <= |text|
  {
    if text == "" then 0
    else if text[|text| - 1] == ' ' then |text|
    else LastWordStart(text[..|text| - 1])
  }

  function Strip(text: string): string {
    if text != "" && text[0] == ' ' then Strip(text[1..])
    else if text != "" && text[|text| - 1] == ' ' then Strip(text[..|text| - 1])
    else text
  }

  function Spaces(n: nat): (s: string)
    ensures |s| == n && forall i :: 0 <= i < n ==> s[i] == ' '
  {
    seq(n, _ => ' ')
  }

  /** Spaces go at both ends, and nothing else does. */
  lemma {:induction false} StripBoth(i: nat, core: string, j: nat)
    requires core != "" ==> core[0] != ' ' && core[|core| - 1] != ' '
    ensures Strip(Spaces(i) + core + Spaces(j)) == core
    decreases i + j
  {
    var s := Spaces(i) + core + Spaces(j);
    if i > 0 {
      assert s[1..] == Spaces(i - 1) + core + Spaces(j);
      StripBoth(i - 1, core, j);
    } else if j > 0 {
      assert core == "" ==> s[1..] == Spaces(0) + core + Spaces(j - 1);
      assert s[..|s| - 1] == Spaces(0) + core + Spaces(j - 1);
      StripBoth(0, core, j - 1);
    } else {
      assert s == core;
    }
  }

  /** corpus/score.py:37-40: the last word of `text` in ordinal form. */
  function OrdinalText(text: string): string {
    var k := LastWordStart(text);
    var head := if k == 0 then "" else text[..k - 1];
    Strip(head + " " + OrdinalWord(text[k..]))
  }

  newtype Digit = d: int | 0 <= d < 10

  function DigitWords(ds: seq<Digit>): (ws: seq<Word>)
    ensures |ws| == |ds|
  {
    seq(|ds|, i requires 0 <= i < |ds| => ONES[ds[i] as int])
  }

  /** corpus/score.py:43-51: a whole part, an ordinal suffix or none, and decimals. */
  function NumberText(whole: nat, isOrdinal: bool, frac: seq<Digit>): string {
    var text := WordsText(whole);
    var text := if isOrdinal then OrdinalText(text) else text;
    var text := if frac == [] then text else text + " point " + Join(DigitWords(frac));
    " " + text + " "
  }

  // ----- Text and word lists -----

  function Join(ws: seq<Word>): string {
    if ws == [] then "" else if |ws| == 1 then ws[0] else ws[0] + " " + Join(ws[1..])
  }

  function WordEnd(s: string): (k: nat)
    ensures k <= |s|
    ensures forall i :: 0 <= i < k ==> s[i] != ' '
    ensures k < |s| ==> s[k] == ' '
  {
    if s == "" || s[0] == ' ' then 0 else 1 + WordEnd(s[1..])
  }

  /** The words of a text: its maximal space-free parts. */
  function Split(s: string): seq<Word>
    decreases |s|
  {
    if s == "" then []
    else if s[0] == ' ' then Split(s[1..])
    else [s[..WordEnd(s)]] + Split(s[WordEnd(s)..])
  }

  predicate Plain(w: Word) {
    w != "" && forall i :: 0 <= i < |w| ==> w[i] != ' '
  }

  predicate AllPlain(ws: seq<Word>) {
    forall i :: 0 <= i < |ws| ==> Plain(ws[i])
  }

  lemma SplitWord(w: Word, rest: string)
    requires Plain(w) && (rest == "" || rest[0] == ' ')
    ensures Split(w + rest) == [w] + Split(rest)
  {
    var s := w + rest;
    var k := WordEnd(s);
    assert s[0] == w[0];
    assert forall i :: 0 <= i < |w| ==> s[i] == w[i];
    assert rest != "" ==> s[|w|] == rest[0];
    assert k == |w|;
    assert s[..k] == w && s[k..] == rest;
  }

  lemma JoinCons(ws: seq<Word>, rest: string)
    requires |ws| > 1
    ensures Join(ws) + rest == ws[0] + (" " + (Join(ws[1..]) + rest))
  {
  }

  /** Splitting undoes joining, whatever spaces follow. */
  lemma {:induction false} SplitJoin(ws: seq<Word>, rest: string)
    requires AllPlain(ws) && ws != [] && (rest == "" || rest[0] == ' ')
    ensures Split(Join(ws) + rest) == ws + Split(rest)
    decreases |ws|
  {
    if |ws| == 1 {
      SplitWord(ws[0], rest);
      assert ws == [ws[0]];
    } else {
      var tail := Join(ws[1..]) + rest;
      calc {
        Split(Join(ws) + rest);
        { JoinCons(ws, rest); }
        Split(ws[0] + (" " + tail));
        { SplitWord(ws[0], " " + tail); }
        [ws[0]] + Split(" " + tail);
        { SplitSpace(tail); }
        [ws[0]] + Split(tail);
        { SplitJoin(ws[1..], rest); }
        [ws[0]] + (ws[1..] + Split(rest));
        ws + Split(rest);
      }
    }
  }

  lemma SplitSpace(s: string)
    ensures Split(" " + s) == Split(s)
  {
    assert (" " + s)[1..] == s;
  }

  lemma {:induction false} JoinAppend(ws: seq<Word>, vs: seq<Word>)
    requires ws != [] && vs != []
    ensures Join(ws + vs) == Join(ws) + " " + Join(vs)
    decreases |ws|
  {
    assert (ws + vs)[1..] == ws[1..] + vs;
    if |ws| > 1 { JoinAppend(ws[1..], vs); }
  }

  // ----- The printer, as tokens -----

  /** A spoken word of a cardinal number. */
  datatype Token = One(k: nat) | Ten(k: nat) | Hundred | Thousand | Million | Billion

  predicate Spoken(t: Token) {
    (t.One? ==> t.k < 20) && (t.Ten? ==> 2 <= t.k < 10)
  }

  function Spell(t: Token): Word
    requires Spoken(t)
  {
    match t
    case One(k) => ONES[k]
    case Ten(k) => TENS[k]
    case Hundred => "hundred"
    case Thousand => "thousand"
    case Million => "million"
    case Billion => "billion"
  }

  function Scale(n: nat): (r: (nat, Token))
    requires 1000 <= n
    ensures 1000 <= r.0 <= n && Spoken(r.1) && !r.1.One? && !r.1.Ten? && !r.1.Hundred?
  {
    if n >= BILLION then (BILLION, Billion)
    else if n >= MILLION then (MILLION, Million)
    else (1000, Thousand)
  }

  /** The printer's recursion, one token a word. */
  function Tokens(n: nat): (ts: seq<Token>)
    ensures ts != [] && forall i :: 0 <= i < |ts| ==> Spoken(ts[i])
  {
    if n < 20 then [One(n)]
    else if n < 100 then [Ten(n / 10)] + (if n % 10 == 0 then [] else [One(n % 10)])
    else if n < 1000 then [One(n / 100), Hundred] + RestTokens(n, 100)
    else Tokens(n / Scale(n).0) + [Scale(n).1] + RestTokens(n, Scale(n).0)
  }

  function RestTokens(n: nat, size: nat): (ts: seq<Token>)
    requires 0 < size <= n
    ensures forall i :: 0 <= i < |ts| ==> Spoken(ts[i])
    decreases n, 0
  {
    if n % size == 0 then [] else Tokens(n % size)
  }

  function SpellAll(ts: seq<Token>): (ws: seq<Word>)
    requires forall i :: 0 <= i < |ts| ==> Spoken(ts[i])
    ensures |ws| == |ts|
  {
    seq(|ts|, i requires 0 <= i < |ts| => Spell(ts[i]))
  }

  lemma SpellAppend(ts: seq<Token>, us: seq<Token>)
    requires forall i :: 0 <= i < |ts| ==> Spoken(ts[i])
    requires forall i :: 0 <= i < |us| ==> Spoken(us[i])
    ensures SpellAll(ts + us) == SpellAll(ts) + SpellAll(us)
  {
  }

  /** What the source's "" / " " + rest pattern does to a nonempty text. */
  lemma JoinRest(ts: seq<Token>, us: seq<Token>)
    requires ts != []
    requires forall i :: 0 <= i < |ts| ==> Spoken(ts[i])
    requires forall i :: 0 <= i < |us| ==> Spoken(us[i])
    ensures Join(SpellAll(ts + us)) == Join(SpellAll(ts)) + (if us == [] then "" else " " + Join(SpellAll(us)))
  {
    SpellAppend(ts, us);
    if us == [] { assert SpellAll(ts + us) == SpellAll(ts); } else { JoinAppend(SpellAll(ts), SpellAll(us)); }
  }

  lemma JoinOne(t: Token)
    requires Spoken(t)
    ensures Join(SpellAll([t])) == Spell(t)
  {
  }

  lemma TextOfScale(n: nat)
    requires 1000 <= n
    ensures WordsText(n) == ScaledText(n, Scale(n).0, Spell(Scale(n).1))
  {
  }

  lemma JoinName(q: seq<Token>, name: Token)
    requires q != [] && Spoken(name)
    requires forall i :: 0 <= i < |q| ==> Spoken(q[i])
    ensures Join(SpellAll(q + [name])) == Join(SpellAll(q)) + " " + Spell(name)
  {
    JoinRest(q, [name]);
    JoinOne(name);
  }

  lemma JoinScaled(q: seq<Token>, name: Token, rest: seq<Token>)
    requires q != [] && Spoken(name)
    requires forall i :: 0 <= i < |q| ==> Spoken(q[i])
    requires forall i :: 0 <= i < |rest| ==> Spoken(rest[i])
    ensures Join(SpellAll(q + [name] + rest)) ==
            Join(SpellAll(q)) + " " + Spell(name) + (if rest == [] then "" else " " + Join(SpellAll(rest)))
  {
    JoinName(q, name);
    JoinRest(q + [name], rest);
  }

  /** The text the source builds is the spelled tokens joined with spaces. */
  lemma {:induction false} TextIsTokens(n: nat)
    ensures WordsText(n) == Join(SpellAll(Tokens(n)))
    decreases n, 1
  {
    if n < 20 {
      JoinOne(One(n));
    } else if n < 100 {
      JoinRest([Ten(n / 10)], if n % 10 == 0 then [] else [One(n % 10)]);
      JoinOne(Ten(n / 10));
      JoinOne(One(n % 10));
    } else if n < 1000 {
      HundredsText(n);
    } else {
      var (size, name) := Scale(n);
      TextOfScale(n);
      TextIsTokens(n / size);
      if n % size != 0 { TextIsTokens(n % size); }
      JoinScaled(Tokens(n / size), name, RestTokens(n, size));
    }
  }

  lemma {:induction false} HundredsText(n: nat)
    requires 100 <= n < 1000
    ensures WordsText(n) == Join(SpellAll(Tokens(n)))
    decreases n, 0
  {
    var h, rest := One(n / 100), RestTokens(n, 100);
    if n % 100 != 0 { TextIsTokens(n % 100); }
    HundredsAre(n, Spell(h), if rest == [] then "" else " " + Join(SpellAll(rest)));
    JoinScaled([h], Hundred, rest);
    JoinOne(h);
    assert Tokens(n) == [h] + [Hundred] + rest;
  }

  lemma HundredsAre(n: nat, h: Word, rest: string)
    requires 100 <= n < 1000 && h == ONES[n / 100]
    requires rest == if n % 100 == 0 then "" else " " + WordsText(n % 100)
    ensures WordsText(n) == h + " " + Spell(Hundred) + rest
  {
    assert " hundred" == " " + Spell(Hundred);
    Regroup(h, " ", Spell(Hundred), rest);
  }

  lemma Regroup(a: string, b: string, c: string, d: string)
    ensures a + (b + c) + d == a + b + c + d
  {
  }

  // ----- The reader -----

  function LastIndex(ts: seq<Token>, t: Token): (k: nat)
    requires t in ts
    ensures k < |ts| && ts[k] == t && forall j :: k < j < |ts| ==> ts[j] != t
  {
    if ts[|ts| - 1] == t then |ts| - 1 else LastIndex(ts[..|ts| - 1], t)
  }

  /** Split at the last occurrence of the largest scale word present. */
  function Value(ts: seq<Token>): nat
    decreases |ts|
  {
    if Billion in ts then ValueAt(ts, Billion, BILLION)
    else if Million in ts then ValueAt(ts, Million, MILLION)
    else if Thousand in ts then ValueAt(ts, Thousand, 1000)
    else if Hundred in ts then ValueAt(ts, Hundred, 100)
    else if ts == [] then 0
    else
      var head := match ts[0] case One(k) => k case Ten(k) => 10 * k case _ => 0;
      head + Value(ts[1..])
  }

  function ValueAt(ts: seq<Token>, t: Token, size: nat): nat
    requires t in ts
    decreases |ts|, 0
  {
    var k := LastIndex(ts, t);
    Value(ts[..k]) * size + Value(ts[k + 1..])
  }

  lemma {:induction false} NoLargerScale(n: nat)
    ensures n < BILLION ==> Billion !in Tokens(n)
    ensures n < MILLION ==> Million !in Tokens(n)
    ensures n < 1000 ==> Thousand !in Tokens(n)
    ensures n < 100 ==> Hundred !in Tokens(n)
    decreases n
  {
    if 100 <= n < 1000 {
      if n % 100 != 0 { NoLargerScale(n % 100); }
    } else if 1000 <= n < BILLION {
      var (size, name) := Scale(n);
      NoLargerScale(n / size);
      if n % size != 0 { NoLargerScale(n % size); }
    }
  }

  /** Where a list is cut at the last `t`, when no `t` follows. */
  lemma ValueSplit(head: seq<Token>, t: Token, tail: seq<Token>, size: nat)
    requires t !in tail
    ensures t in head + [t] + tail
    ensures ValueAt(head + [t] + tail, t, size) == Value(head) * size + Value(tail)
  {
    var ts := head + [t] + tail;
    assert ts[|head|] == t;
    assert forall j :: |head| < j < |ts| ==> ts[j] == tail[j - |head| - 1];
    var k := LastIndex(ts, t);
    assert ts[..k] == head && ts[k + 1..] == tail;
  }

  function Size(t: Token): nat {
    match t
    case Billion => BILLION
    case Million => MILLION
    case Thousand => 1000
    case _ => 100
  }

  /** No scale word above `t` occurs. */
  predicate Tops(t: Token, ts: seq<Token>) {
    && t in ts
    && (t.Hundred? || t.Thousand? || t.Million? || t.Billion?)
    && (t != Billion ==> Billion !in ts)
    && (t.Hundred? || t.Thousand? ==> Million !in ts)
    && (t.Hundred? ==> Thousand !in ts)
  }

  lemma ValueTop(head: seq<Token>, t: Token, tail: seq<Token>)
    requires Tops(t, head + [t] + tail) && t !in tail
    ensures Value(head + [t] + tail) == Value(head) * Size(t) + Value(tail)
  {
    ValueSplit(head, t, tail, Size(t));
  }

  lemma Single(t: Token)
    requires t.One? || t.Ten?
    ensures Value([t]) == if t.One? then t.k else 10 * t.k
  {
    assert Value([t][1..]) == 0;
  }

  lemma TensValue(n: nat)
    requires 20 <= n < 100
    ensures Value(Tokens(n)) == n
  {
    Single(Ten(n / 10));
    if n % 10 != 0 {
      var ts := [Ten(n / 10), One(n % 10)];
      assert Tokens(n) == ts && ts[1..] == [One(n % 10)];
      Single(One(n % 10));
    }
  }

  /** The value of what follows the scale word. */
  lemma {:induction false} ValueOfRest(n: nat, size: nat)
    requires 0 < size <= n
    ensures Value(RestTokens(n, size)) == n % size
    decreases n, 0
  {
    if n % size != 0 { ValueOfTokens(n % size); }
  }

  lemma TopOfScale(n: nat)
    requires 1000 <= n
    ensures Tops(Scale(n).1, Tokens(n)) && Scale(n).1 !in RestTokens(n, Scale(n).0)
    ensures Size(Scale(n).1) == Scale(n).0
  {
    var (size, name) := Scale(n);
    NoLargerScale(n);
    if n % size != 0 { NoLargerScale(n % size); }
    assert Tokens(n)[|Tokens(n / size)|] == name;
  }

  lemma Division(n: nat, size: nat)
    requires size > 0
    ensures n / size * size + n % size == n
  {
  }

  lemma {:induction false} HundredsValue(n: nat)
    requires 100 <= n < 1000
    ensures Value(Tokens(n)) == n
    decreases n, 1
  {
    assert Tokens(n) == [One(n / 100)] + [Hundred] + RestTokens(n, 100);
    NoLargerScale(n);
    if n % 100 != 0 { NoLargerScale(n % 100); }
    assert Tokens(n)[1] == Hundred;
    ValueTop([One(n / 100)], Hundred, RestTokens(n, 100));
    ValueOfRest(n, 100);
    Single(One(n / 100));
  }

  lemma ScaledValue(n: nat, size: nat, name: Token)
    requires 1000 <= n && Scale(n) == (size, name) && Value(Tokens(n / size)) == n / size
    requires Value(RestTokens(n, size)) == n % size
    ensures Value(Tokens(n)) == n
  {
    TopOfScale(n);
    ValueTop(Tokens(n / size), name, RestTokens(n, size));
    Division(n, size);
  }

  /** The reader recovers every number, however many times "billion" nests. */
  lemma {:induction false} ValueOfTokens(n: nat)
    ensures Value(Tokens(n)) == n
    decreases n, 2
  {
    if n < 20 {
      Single(One(n));
    } else if n < 100 {
      TensValue(n);
    } else if n < 1000 {
      HundredsValue(n);
    } else {
      ValueOfTokens(n / Scale(n).0);
      ValueOfRest(n, Scale(n).0);
      ScaledValue(n, Scale(n).0, Scale(n).1);
    }
  }

  // ----- Reading single words -----

  /** Position of `w` in a table, its length when absent. */
  function IndexIn(w: Word, table: seq<Word>): (k: nat)
    ensures w in table ==> k < |table| && table[k] == w
    ensures w !in table ==> k == |table|
  {
    if table == [] then 0 else if table[0] == w then 0 else 1 + IndexIn(w, table[1..])
  }

  function Unspell(w: Word): Token {
    if w == "hundred" then Hundred
    else if w == "thousand" then Thousand
    else if w == "million" then Million
    else if w == "billion" then Billion
    else if w in ONES then One(IndexIn(w, ONES))
    else Ten(IndexIn(w, TENS))
  }

  lemma OnesDistinct(j: nat, k: nat)
    requires j < 20 && k < 20 && ONES[j] == ONES[k]
    ensures j == k
  {
  }

  lemma TensDistinct(j: nat, k: nat)
    requires j < 10 && 2 <= k < 10 && TENS[j] == TENS[k]
    ensures j == k
  {
  }

  lemma OnesAreNotTens(j: nat, k: nat)
    requires j < 20 && 2 <= k < 10
    ensures ONES[j] != TENS[k]
  {
  }

  lemma ScaleWordsApart(k: nat)
    ensures k < 20 ==> ONES[k] != "hundred" && ONES[k] != "thousand" && ONES[k] != "million" && ONES[k] != "billion"
    ensures 2 <= k < 10 ==>
              TENS[k] != "hundred" && TENS[k] != "thousand" && TENS[k] != "million" && TENS[k] != "billion"
  {
  }

  lemma UnspellSpell(t: Token)
    requires Spoken(t)
    ensures Unspell(Spell(t)) == t
  {
    match t
    case One(k) =>
      ScaleWordsApart(k);
      OnesDistinct(IndexIn(ONES[k], ONES), k);
    case Ten(k) =>
      ScaleWordsApart(k);
      var w := TENS[k];
      if w in ONES { OnesAreNotTens(IndexIn(w, ONES), k); }
      assert w in TENS;
      TensDistinct(IndexIn(w, TENS), k);
    case _ =>
  }

  // ----- What the words mean -----

  /** English for the numbers below twenty, and what ranks them. */
  predicate NamesUnit(w: Word, k: nat) {
    match k
    case 0 => w == "zero"
    case 1 => w == "one"
    case 2 => w == "two"
    case 3 => w == "three"
    case 4 => w == "four"
    case 5 => w == "five"
    case 6 => w == "six"
    case 7 => w == "seven"
    case 8 => w == "eight"
    case 9 => w == "nine"
    case 10 => w == "ten"
    case 11 => w == "eleven"
    case 12 => w == "twelve"
    case 13 => w == "thirteen"
    case 14 => w == "fourteen"
    case 15 => w == "fifteen"
    case 16 => w == "sixteen"
    case 17 => w == "seventeen"
    case 18 => w == "eighteen"
    case 19 => w == "nineteen"
    case _ => false
  }

  predicate RanksUnit(w: Word, k: nat) {
    match k
    case 0 => w == "zeroth"
    case 1 => w == "first"
    case 2 => w == "second"
    case 3 => w == "third"
    case 4 => w == "fourth"
    case 5 => w == "fifth"
    case 6 => w == "sixth"
    case 7 => w == "seventh"
    case 8 => w == "eighth"
    case 9 => w == "ninth"
    case 10 => w == "tenth"
    case 11 => w == "eleventh"
    case 12 => w == "twelfth"
    case 13 => w == "thirteenth"
    case 14 => w == "fourteenth"
    case 15 => w == "fifteenth"
    case 16 => w == "sixteenth"
    case 17 => w == "seventeenth"
    case 18 => w == "eighteenth"
    case 19 => w == "nineteenth"
    case _ => false
  }

  /** English for k times ten, and what ranks it. */
  predicate NamesTen(w: Word, k: nat) {
    match k
    case 2 => w == "twenty"
    case 3 => w == "thirty"
    case 4 => w == "forty"
    case 5 => w == "fifty"
    case 6 => w == "sixty"
    case 7 => w == "seventy"
    case 8 => w == "eighty"
    case 9 => w == "ninety"
    case _ => false
  }

  predicate RanksTen(w: Word, k: nat) {
    match k
    case 2 => w == "twentieth"
    case 3 => w == "thirtieth"
    case 4 => w == "fortieth"
    case 5 => w == "fiftieth"
    case 6 => w == "sixtieth"
    case 7 => w == "seventieth"
    case 8 => w == "eightieth"
    case 9 => w == "ninetieth"
    case _ => false
  }

  /** Every word printed for a number or a rank is the English one. */
  lemma UnitWords(k: nat)
    requires k < 20
    ensures NamesUnit(ONES[k], k) && RanksUnit(OrdinalWord(ONES[k]), k)
  {
  }

  lemma TenWords(k: nat)
    requires 2 <= k < 10
    ensures NamesTen(TENS[k], k) && RanksTen(OrdinalWord(TENS[k]), k)
  {
  }

  // ----- Ordinals -----

  datatype Reading = Cardinal | Ordinal(of: Word)

  /** Which cardinal an ordinal word came from, if it is one. */
  function ReadOrdinal(w: Word): Reading {
    if w == "first" then Ordinal("one")
    else if w == "second" then Ordinal("two")
    else if w == "third" then Ordinal("three")
    else if w == "fifth" then Ordinal("five")
    else if w == "eighth" then Ordinal("eight")
    else if w == "ninth" then Ordinal("nine")
    else if w == "twelfth" then Ordinal("twelve")
    else if EndsWith(w, "ieth") then Ordinal(w[..|w| - 4] + "y")
    else if EndsWith(w, "th") then Ordinal(w[..|w| - 2])
    else Cardinal
  }

  /** What all spoken cardinals have in common. */
  predicate CardinalWord(w: Word) {
    && Plain(w) && |w| >= 3 && w != "point"
    && w[|w| - 1] != 'h' && !(w[|w| - 2] == 'i' && w[|w| - 1] == 'e')
    && w != "first" && w != "second" && w != "third"
    && w != "fif" && w != "nin" && w != "twelf"
  }

  lemma OnesLetters(k: nat)
    requires k < 20
    ensures var w := ONES[k];
            |w| >= 3 && w[|w| - 1] != 'h' && !(w[|w| - 2] == 'i' && w[|w| - 1] == 'e')
  {
  }

  lemma OnesAreCardinal(k: nat)
    requires k < 20
    ensures CardinalWord(ONES[k])
  {
    OnesLetters(k);
    var w := ONES[k];
    assert w[0] == 'p' ==> false;
    assert w != "first" && w != "second" && w != "third";
    assert w != "fif" && w != "nin" && w != "twelf";
  }

  lemma TensAreCardinal(k: nat)
    requires 2 <= k < 10
    ensures CardinalWord(TENS[k])
  {
    var w := TENS[k];
    assert w[|w| - 1] == 'y' && |w| >= 5;
  }

  lemma SpelledAreCardinal(t: Token)
    requires Spoken(t)
    ensures CardinalWord(Spell(t))
  {
    match t
    case One(k) => OnesAreCardinal(k);
    case Ten(k) => TensAreCardinal(k);
    case _ =>
  }

  predicate Irregular(w: Word) {
    w == "first" || w == "second" || w == "third" || w == "fifth" || w == "eighth" || w == "ninth" || w == "twelfth"
  }

  lemma ReadIeth(w: Word)
    requires |w| >= 3 && w[|w| - 1] == 'y'
    ensures ReadOrdinal(w[..|w| - 1] + "ieth") == Ordinal(w)
  {
    var o := w[..|w| - 1] + "ieth";
    assert EndsWith(o, "ieth");
    assert o[|o| - 3] == 'e';
    assert !Irregular(o);
    assert o[..|o| - 4] + "y" == w;
  }

  lemma ReadTh(w: Word)
    requires CardinalWord(w) && w != "eigh"
    ensures ReadOrdinal(w + "th") == Ordinal(w)
  {
    var o := w + "th";
    assert o[..|o| - 2] == w;
    assert !Irregular(o);
    assert EndsWith(o, "th") && !EndsWith(o, "ieth") by {
      assert o[|o| - 3] == w[|w| - 1] && o[|o| - 4] == w[|w| - 2];
      var e := "ieth";
      assert e[0] == 'i' && e[1] == 'e';
    }
  }

  /** A cardinal is never mistaken for an ordinal. */
  lemma CardinalIsNotOrdinal(w: Word)
    requires CardinalWord(w)
    ensures ReadOrdinal(w) == Cardinal
  {
    var e, t := "ieth", "th";
    assert e[3] == 'h' && t[1] == 'h';
    assert !EndsWith(w, "ieth") && !EndsWith(w, "th");
  }

  lemma OrdinalIsPlain(w: Word)
    requires Plain(w)
    ensures Plain(OrdinalWord(w)) && OrdinalWord(w) != "point"
  {
    var o, p := OrdinalWord(w), "point";
    assert p[|p| - 2] == 'n' && p[|p| - 1] == 't';
  }

  /** The ordinal form is recognised and undone. */
  lemma ReadOrdinalWord(w: Word)
    requires CardinalWord(w)
    ensures ReadOrdinal(OrdinalWord(w)) == Ordinal(w)
  {
    if w == "one" || w == "two" || w == "three" || w == "five" || w == "eight" || w == "nine" || w == "twelve" {
    } else if w[|w| - 1] == 'y' {
      ReadIeth(w);
    } else {
      ReadTh(w);
    }
  }

  // ----- Whole numbers, ordinals and decimals -----

  datatype Number = Number(whole: nat, isOrdinal: bool, frac: seq<Digit>)

  lemma {:induction false} LastWordOf(head: string, w: Word)
    requires forall i :: 0 <= i < |w| ==> w[i] != ' '
    requires head == "" || head[|head| - 1] == ' '
    ensures LastWordStart(head + w) == |head|
    decreases |w|
  {
    if w == "" {
      assert head + w == head;
    } else {
      assert (head + w)[..|head + w| - 1] == head + w[..|w| - 1];
      LastWordOf(head, w[..|w| - 1]);
    }
  }

  lemma StripKeeps(text: string)
    requires text != "" && text[0] != ' ' && text[|text| - 1] != ' '
    ensures Strip(text) == text && Strip(" " + text) == text
  {
    assert (" " + text)[1..] == text;
  }

  lemma {:induction false} JoinStartsPlain(ws: seq<Word>)
    requires ws != [] && AllPlain(ws)
    ensures Join(ws) != "" && Join(ws)[0] != ' ' && Join(ws)[|Join(ws)| - 1] != ' '
    decreases |ws|
  {
    if |ws| > 1 { JoinStartsPlain(ws[1..]); }
  }

  lemma Cuts(head: string, w: string)
    ensures (head + " " + w)[..|head|] == head && (head + " " + w)[|head| + 1..] == w
  {
  }

  lemma OrdinalAfter(head: string, w: Word)
    requires Plain(w) && Plain(OrdinalWord(w)) && head != "" && head[0] != ' '
    ensures OrdinalText(head + " " + w) == head + " " + OrdinalWord(w)
  {
    LastWordOf(head + " ", w);
    OrdinalOfParts(head, w);
    var text, last := head + " " + OrdinalWord(w), OrdinalWord(w);
    assert text[0] == head[0] && text[|text| - 1] == last[|last| - 1];
    StripKeeps(text);
  }

  lemma OrdinalOfParts(head: string, w: Word)
    requires LastWordStart(head + " " + w) == |head| + 1
    ensures OrdinalText(head + " " + w) == Strip(head + " " + OrdinalWord(w))
  {
    Cuts(head, w);
  }

  lemma OrdinalAlone(w: Word)
    requires Plain(w) && Plain(OrdinalWord(w))
    ensures OrdinalText(w) == OrdinalWord(w)
  {
    assert "" + w == w;
    LastWordOf("", w);
    assert w[0..] == w;
    assert "" + " " + OrdinalWord(w) == " " + OrdinalWord(w);
    StripKeeps(OrdinalWord(w));
  }

  /** On joined words the text operation acts on the last word alone. */
  lemma OrdinalOfJoin(front: seq<Word>, w: Word)
    requires AllPlain(front) && Plain(w) && Plain(OrdinalWord(w))
    ensures OrdinalText(Join(front + [w])) == Join(front + [OrdinalWord(w)])
  {
    if front == [] {
      assert front + [w] == [w] && front + [OrdinalWord(w)] == [OrdinalWord(w)];
      OrdinalAlone(w);
    } else {
      JoinAppend(front, [w]);
      JoinAppend(front, [OrdinalWord(w)]);
      JoinStartsPlain(front);
      OrdinalAfter(Join(front), w);
    }
  }

  function OrdinalLast(ws: seq<Word>): (os: seq<Word>)
    requires ws != []
    ensures |os| == |ws|
  {
    ws[..|ws| - 1] + [OrdinalWord(ws[|ws| - 1])]
  }

  function WholeWords(n: Number): (ws: seq<Word>)
    ensures ws != []
  {
    var ws := SpellAll(Tokens(n.whole));
    if n.isOrdinal then OrdinalLast(ws) else ws
  }

  /** The words `NumberText` prints, as a list. */
  function SpokenWords(n: Number): seq<Word> {
    WholeWords(n) + (if n.frac == [] then [] else ["point"] + DigitWords(n.frac))
  }

  lemma WholeWordsPlain(n: Number)
    ensures AllPlain(WholeWords(n)) && "point" !in WholeWords(n)
  {
    var ts := Tokens(n.whole);
    forall i | 0 <= i < |ts| ensures CardinalWord(Spell(ts[i])) { SpelledAreCardinal(ts[i]); }
    OrdinalIsPlain(Spell(ts[|ts| - 1]));
  }

  /** A list of spoken tokens, made ordinal as text or as words. */
  lemma OrdinalOfSpelled(ts: seq<Token>)
    requires ts != [] && forall i :: 0 <= i < |ts| ==> Spoken(ts[i])
    ensures OrdinalText(Join(SpellAll(ts))) == Join(OrdinalLast(SpellAll(ts)))
  {
    forall i | 0 <= i < |ts| ensures CardinalWord(Spell(ts[i])) { SpelledAreCardinal(ts[i]); }
    var ws, last := SpellAll(ts), |ts| - 1;
    assert ws == ws[..last] + [ws[last]];
    OrdinalIsPlain(ws[last]);
    OrdinalOfJoin(ws[..last], ws[last]);
  }

  lemma WholeText(n: Number)
    ensures (if n.isOrdinal then OrdinalText(WordsText(n.whole)) else WordsText(n.whole)) == Join(WholeWords(n))
  {
    TextIsTokens(n.whole);
    OrdinalOfSpelled(Tokens(n.whole));
  }

  lemma DigitWordsPlain(ds: seq<Digit>)
    ensures AllPlain(DigitWords(ds))
  {
    forall i | 0 <= i < |ds| ensures Plain(ONES[ds[i] as int]) { OnesAreCardinal(ds[i] as int); }
  }

  lemma JoinPoint(ws: seq<Word>, ds: seq<Word>)
    requires ws != [] && ds != []
    ensures Join(ws) + " point " + Join(ds) == Join(ws + (["point"] + ds))
  {
    JoinAppend(["point"], ds);
    JoinAppend(ws, ["point"] + ds);
    assert Join(["point"]) == "point";
    assert " point " == " " + "point" + " ";
  }

  lemma TextIsJoined(n: Number)
    ensures NumberText(n.whole, n.isOrdinal, n.frac) == " " + (Join(SpokenWords(n)) + " ")
  {
    WholeText(n);
    if n.frac == [] {
      assert SpokenWords(n) == WholeWords(n);
    } else {
      JoinPoint(WholeWords(n), DigitWords(n.frac));
    }
  }

  lemma PaddedSplit(ws: seq<Word>)
    requires ws != [] && AllPlain(ws)
    ensures Split(" " + (Join(ws) + " ")) == ws
  {
    SplitSpace(Join(ws) + " ");
    SplitJoin(ws, " ");
    assert Split(" ") == [];
  }

  /** Splitting the printed text gives the listed words. */
  lemma PrintedWords(n: Number)
    ensures Split(NumberText(n.whole, n.isOrdinal, n.frac)) == SpokenWords(n)
  {
    TextIsJoined(n);
    WholeWordsPlain(n);
    DigitWordsPlain(n.frac);
    PaddedSplit(SpokenWords(n));
  }

  function UnspellAll(ws: seq<Word>): seq<Token> {
    seq(|ws|, i requires 0 <= i < |ws| => Unspell(ws[i]))
  }

  function ReadWhole(ws: seq<Word>): (nat, bool) {
    if ws == [] then (0, false)
    else
      var last := |ws| - 1;
      match ReadOrdinal(ws[last])
      case Ordinal(w) => (Value(UnspellAll(ws[..last] + [w])), true)
      case Cardinal => (Value(UnspellAll(ws)), false)
  }

  function ReadDigits(ws: seq<Word>): seq<Digit> {
    seq(|ws|, i requires 0 <= i < |ws| => if IndexIn(ws[i], ONES) < 10 then IndexIn(ws[i], ONES) as Digit else 0)
  }

  /** The reader: digits follow "point", an ordinal last word marks an ordinal. */
  function ReadNumber(ws: seq<Word>): Number {
    var p := IndexIn("point", ws);
    var (whole, isOrdinal) := ReadWhole(ws[..p]);
    Number(whole, isOrdinal, if p == |ws| then [] else ReadDigits(ws[p + 1..]))
  }

  lemma UnspellSpelled(ts: seq<Token>)
    requires forall i :: 0 <= i < |ts| ==> Spoken(ts[i])
    ensures UnspellAll(SpellAll(ts)) == ts
  {
    forall i | 0 <= i < |ts| ensures Unspell(Spell(ts[i])) == ts[i] { UnspellSpell(ts[i]); }
  }

  ghost predicate ReadsBack(w: Word) {
    ReadOrdinal(w) == Cardinal && ReadOrdinal(OrdinalWord(w)) == Ordinal(w)
  }

  ghost predicate AllReadBack(ws: seq<Word>) {
    forall i :: 0 <= i < |ws| ==> ReadsBack(ws[i])
  }

  lemma SpelledReadBack(t: Token)
    requires Spoken(t)
    ensures ReadsBack(Spell(t))
  {
    SpelledAreCardinal(t);
    CardinalIsNotOrdinal(Spell(t));
    ReadOrdinalWord(Spell(t));
  }

  lemma AllSpelledReadBack(ts: seq<Token>)
    requires forall i :: 0 <= i < |ts| ==> Spoken(ts[i])
    ensures AllReadBack(SpellAll(ts))
  {
    forall i | 0 <= i < |ts| ensures ReadsBack(Spell(ts[i])) { SpelledReadBack(ts[i]); }
  }

  lemma ReadAsCardinal(ws: seq<Word>)
    requires ws != [] && AllReadBack(ws)
    ensures ReadWhole(ws) == (Value(UnspellAll(ws)), false)
  {
    assert ReadsBack(ws[|ws| - 1]);
  }

  lemma LastReplaced<T>(ws: seq<T>, x: T)
    requires ws != []
    ensures var os, last := ws[..|ws| - 1] + [x], |ws| - 1;
            os[last] == x && os[..last] + [ws[last]] == ws
  {
  }

  lemma ReadAsOrdinal(ws: seq<Word>)
    requires ws != [] && AllReadBack(ws)
    ensures ReadWhole(OrdinalLast(ws)) == (Value(UnspellAll(ws)), true)
  {
    var w := ws[|ws| - 1];
    assert ReadsBack(w);
    LastReplaced(ws, OrdinalWord(w));
  }

  lemma ReadWholeWords(n: Number)
    ensures ReadWhole(WholeWords(n)) == (n.whole, n.isOrdinal)
  {
    var ws := SpellAll(Tokens(n.whole));
    AllSpelledReadBack(Tokens(n.whole));
    ReadAsCardinal(ws);
    ReadAsOrdinal(ws);
    UnspellSpelled(Tokens(n.whole));
    ValueOfTokens(n.whole);
  }

  lemma ReadDigitWords(ds: seq<Digit>)
    ensures ReadDigits(DigitWords(ds)) == ds
  {
    forall i | 0 <= i < |ds| ensures IndexIn(DigitWords(ds)[i], ONES) == ds[i] as int {
      OnesDistinct(IndexIn(DigitWords(ds)[i], ONES), ds[i] as int);
    }
  }

  lemma {:induction false} FirstPoint(ws: seq<Word>, rest: seq<Word>)
    requires "point" !in ws
    ensures IndexIn("point", ws + rest) == |ws| + IndexIn("point", rest)
    decreases |ws|
  {
    if ws == [] {
      assert ws + rest == rest;
    } else {
      assert (ws + rest)[1..] == ws[1..] + rest;
      FirstPoint(ws[1..], rest);
    }
  }

  lemma CutAfter<T>(a: seq<T>, x: T, b: seq<T>)
    ensures (a + ([x] + b))[..|a|] == a && (a + ([x] + b))[|a| + 1..] == b
  {
  }

  lemma ReadParts(whole: seq<Word>, digits: seq<Word>, n: Number)
    requires "point" !in whole && ReadWhole(whole) == (n.whole, n.isOrdinal) && ReadDigits(digits) == n.frac
    ensures ReadNumber(whole + (if n.frac == [] then [] else ["point"] + digits)) == n
  {
    if n.frac == [] {
      FirstPoint(whole, []);
      assert whole + [] == whole && whole[..|whole|] == whole;
    } else {
      FirstPoint(whole, ["point"] + digits);
      CutAfter(whole, "point", digits);
    }
  }

  /** Whole value, ordinal flag and every decimal digit are recovered from the printed text. */
  lemma ReadPrinted(n: Number)
    ensures ReadNumber(Split(NumberText(n.whole, n.isOrdinal, n.frac))) == n
  {
    PrintedWords(n);
    WholeWordsPlain(n);
    ReadWholeWords(n);
    ReadDigitWords(n.frac);
    ReadParts(WholeWords(n), DigitWords(n.frac), n);
  }

  /** Numbers that print the same words are the same number, printed the same way. */
  lemma PrintingIsInjective(m: Number, n: Number)
    requires Split(NumberText(m.whole, m.isOrdinal, m.frac)) == Split(NumberText(n.whole, n.isOrdinal, n.frac))
    ensures m == n
  {
    ReadPrinted(m);
    ReadPrinted(n);
  }
}
