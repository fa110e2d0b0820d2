/**
 The last step of `normalize` in corpus/score.py -- upper case, everything but letters and
 digits a space, split into words -- on ASCII text, and what it leaves of a printed number.
 */
module NormalForm {
  import opened NumberWords

  function Upper(c: char): char {
    if 'a' <= c <= 'z' then c - 'a' + 'A' else c
  }

  predicate IsAlnum(c: char) {
    'A' <= c <= 'Z' || 'a' <= c <= 'z' || '0' <= c <= '9'
  }

  function Shout(text: string): (s: string)
    ensures |s| == |text|
  {
    seq(|text|, i requires 0 <= i < |text| => if IsAlnum(Upper(text[i])) then Upper(text[i]) else ' ')
  }

  /** corpus/score.py:57. */
  function NormalWords(text: string): seq<Word> {
    Split(Shout(text))
  }

  function ShoutAll(ws: seq<Word>): (vs: seq<Word>)
    ensures |vs| == |ws|
  {
    seq(|ws|, i requires 0 <= i < |ws| => Shout(ws[i]))
  }

  predicate IsLower(c: char) {
    'a' <= c <= 'z'
  }

  predicate Letters(w: string) {
    forall i :: 0 <= i < |w| ==> IsLower(w[i])
  }

  predicate AllLetters(ws: seq<Word>) {
    forall i :: 0 <= i < |ws| ==> Letters(ws[i])
  }

  /** Lower-case letters and spaces only. */
  predicate Plaintext(s: string) {
    forall i :: 0 <= i < |s| ==> IsLower(s[i]) || s[i] == ' '
  }

  // ----- What the step does to any ASCII text -----

  function Lower(c: char): char {
    if 'A' <= c <= 'Z' then c - 'A' + 'a' else c
  }

  predicate IsUpper(c: char) {
    'A' <= c <= 'Z'
  }

  predicate IsDigit(c: char) {
    '0' <= c <= '9'
  }

  /** Letters come out as the capital of themselves, digits as they are, all else as spaces. */
  lemma ShoutAt(text: string, i: nat)
    requires i < |text|
    ensures var c, d := text[i], Shout(text)[i];
            && (IsLower(c) || IsUpper(c) ==> IsUpper(d) && Lower(d) == Lower(c))
            && (IsDigit(c) ==> d == c)
            && (!IsLower(c) && !IsUpper(c) && !IsDigit(c) ==> d == ' ')
  {
  }

  /** Doing it twice is doing it once. */
  lemma ShoutTwice(text: string)
    ensures Shout(Shout(text)) == Shout(text)
  {
    forall i | 0 <= i < |text| ensures Shout(Shout(text))[i] == Shout(text)[i] {
      ShoutAt(text, i);
      ShoutAt(Shout(text), i);
    }
  }

  // ----- Upper case loses nothing of such text -----

  lemma ShoutKeepsSpaces(s: string, i: nat)
    requires Plaintext(s) && i < |s|
    ensures Shout(s)[i] == ' ' <==> s[i] == ' '
  {
  }

  lemma {:induction false} ShoutWordEnd(s: string)
    requires Plaintext(s)
    ensures WordEnd(Shout(s)) == WordEnd(s)
    decreases |s|
  {
    if s != "" {
      ShoutKeepsSpaces(s, 0);
      assert Shout(s)[1..] == Shout(s[1..]);
      ShoutWordEnd(s[1..]);
    }
  }

  lemma {:induction false} SplitShout(s: string)
    requires Plaintext(s)
    ensures Split(Shout(s)) == ShoutAll(Split(s))
    decreases |s|
  {
    if s != "" {
      ShoutKeepsSpaces(s, 0);
      if s[0] == ' ' {
        assert Shout(s)[1..] == Shout(s[1..]);
        SplitShout(s[1..]);
      } else {
        var k := WordEnd(s);
        ShoutWordEnd(s);
        assert Shout(s)[..k] == Shout(s[..k]) && Shout(s)[k..] == Shout(s[k..]);
        SplitShout(s[k..]);
        ShoutCons(s[..k], Split(s[k..]));
      }
    }
  }

  lemma ShoutCons(w: Word, ws: seq<Word>)
    ensures ShoutAll([w] + ws) == [Shout(w)] + ShoutAll(ws)
  {
  }

  lemma ShoutInjective(v: Word, w: Word)
    requires Letters(v) && Letters(w) && Shout(v) == Shout(w)
    ensures v == w
  {
    forall i | 0 <= i < |v| ensures v[i] == w[i] {
      assert Shout(v)[i] == Upper(v[i]) && Shout(w)[i] == Upper(w[i]);
    }
  }

  lemma ShoutAllInjective(vs: seq<Word>, ws: seq<Word>)
    requires AllLetters(vs) && AllLetters(ws) && ShoutAll(vs) == ShoutAll(ws)
    ensures vs == ws
  {
    assert |vs| == |ws|;
    forall i | 0 <= i < |vs| ensures vs[i] == ws[i] {
      assert ShoutAll(vs)[i] == Shout(vs[i]) && ShoutAll(ws)[i] == Shout(ws[i]);
      ShoutInjective(vs[i], ws[i]);
    }
  }

  // ----- Printed numbers are such text -----

  lemma OnesAreLetters(k: nat)
    requires k < 20
    ensures Letters(ONES[k])
  {
  }

  lemma TensAreLetters(k: nat)
    requires 2 <= k < 10
    ensures Letters(TENS[k])
  {
  }

  lemma SpelledAreLetters(t: Token)
    requires Spoken(t)
    ensures Letters(Spell(t))
  {
    match t
    case One(k) => OnesAreLetters(k);
    case Ten(k) => TensAreLetters(k);
    case _ =>
  }

  lemma SuffixedAreLetters(w: Word)
    requires Letters(w)
    ensures Letters(w + "th") && (w != "" ==> Letters(w[..|w| - 1] + "ieth"))
  {
  }

  lemma OrdinalsAreLetters(w: Word)
    requires Letters(w)
    ensures Letters(OrdinalWord(w))
  {
    SuffixedAreLetters(w);
  }

  lemma WholeWordsAreLetters(n: Number)
    ensures AllLetters(WholeWords(n))
  {
    var ts := Tokens(n.whole);
    forall i | 0 <= i < |ts| ensures Letters(SpellAll(ts)[i]) { SpelledAreLetters(ts[i]); }
    OrdinalsAreLetters(SpellAll(ts)[|ts| - 1]);
  }

  lemma DigitWordsAreLetters(ds: seq<Digit>)
    ensures AllLetters(DigitWords(ds))
  {
    forall i | 0 <= i < |ds| ensures Letters(DigitWords(ds)[i]) { OnesAreLetters(ds[i] as int); }
  }

  lemma SpokenWordsAreLetters(n: Number)
    ensures AllLetters(SpokenWords(n))
  {
    WholeWordsAreLetters(n);
    DigitWordsAreLetters(n.frac);
    assert Letters("point");
  }

  lemma {:induction false} JoinIsPlaintext(ws: seq<Word>)
    requires AllLetters(ws)
    ensures Plaintext(Join(ws))
    decreases |ws|
  {
    if |ws| > 1 { JoinIsPlaintext(ws[1..]); }
  }

  lemma PrintedIsPlaintext(n: Number)
    ensures Plaintext(NumberText(n.whole, n.isOrdinal, n.frac))
  {
    SpokenWordsAreLetters(n);
    TextIsJoined(n);
    JoinIsPlaintext(SpokenWords(n));
  }

  /** The normal form of a printed number is its words in upper case. */
  lemma NormalFormOfNumber(n: Number)
    ensures NormalWords(NumberText(n.whole, n.isOrdinal, n.frac)) == ShoutAll(SpokenWords(n))
  {
    PrintedIsPlaintext(n);
    SplitShout(NumberText(n.whole, n.isOrdinal, n.frac));
    PrintedWords(n);
  }

  /** Numbers with the same normal form are the same number, printed the same way. */
  lemma NormalFormIsInjective(m: Number, n: Number)
    requires NormalWords(NumberText(m.whole, m.isOrdinal, m.frac)) ==
             NormalWords(NumberText(n.whole, n.isOrdinal, n.frac))
    ensures m == n
  {
    NormalFormOfNumber(m);
    NormalFormOfNumber(n);
    SpokenWordsAreLetters(m);
    SpokenWordsAreLetters(n);
    ShoutAllInjective(SpokenWords(m), SpokenWords(n));
    PrintedWords(m);
    PrintedWords(n);
    PrintingIsInjective(m, n);
  }
}
