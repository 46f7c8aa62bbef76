// The words of a query as a user reads them: a command in any mix of cases, and a
// decimal key.
module QueryWords {
  import opened Bytes
  import opened Parsing

  // ----- commands -----

  // c is the lower-case letter d, written in either case.
  predicate SameLetter(c: char, d: char) {
    c == d || ('A' <= c <= 'Z' && d as int == c as int + 32)
  }

  predicate Spells(word: string, name: string) {
    |word| == |name| && forall i | 0 <= i < |name| :: SameLetter(word[i], name[i])
  }

  function Named(word: string): Command {
    if Spells(word, "search") then Search
    else if Spells(word, "insert") then Insert
    else if Spells(word, "delete") then Delete
    else if Spells(word, "quit") then Quit
    else Invalid
  }

  function Lower(s: string): string {
    if s == "" then "" else [ToLower(s[0])] + Lower(s[1..])
  }

  predicate SmallLetters(name: string) {
    forall i | 0 <= i < |name| :: 'a' <= name[i] <= 'z'
  }

  // A word is lowered to a name exactly if it spells the name letter by letter.
  lemma {:induction false} LowerSpells(word: string, name: string)
    requires SmallLetters(name)
    ensures Lower(word) == name <==> Spells(word, name)
    decreases |word|
  {
    if word != "" && name != "" {
      LowerSpells(word[1..], name[1..]);
      SpellsStep(word, name);
      assert Lower(word) == name <==> ToLower(word[0]) == name[0] && Lower(word[1..]) == name[1..] by {
        assert name == [name[0]] + name[1..];
        assert Lower(word)[1..] == Lower(word[1..]);
      }
    }
  }

  lemma SpellsStep(word: string, name: string)
    requires word != "" && name != ""
    ensures Spells(word, name) <==> SameLetter(word[0], name[0]) && Spells(word[1..], name[1..])
  {
    if SameLetter(word[0], name[0]) && Spells(word[1..], name[1..]) {
      forall i | 0 <= i < |name| ensures SameLetter(word[i], name[i]) {
        assert i > 0 ==> word[i] == word[1..][i - 1] && name[i] == name[1..][i - 1];
      }
    } else if Spells(word, name) {
      forall i | 0 <= i < |name[1..]| ensures SameLetter(word[1..][i], name[1..][i]) {
        assert word[1..][i] == word[i + 1] && name[1..][i] == name[i + 1];
      }
    }
  }

  // The parser's command word rule, case included.
  lemma CommandSpelled(word: string)
    ensures CommandOf(Lower(word)) == Named(word)
  {
    hide Spells, Lower;
    LowerSpells(word, "search");
    LowerSpells(word, "insert");
    LowerSpells(word, "delete");
    LowerSpells(word, "quit");
  }

  lemma NamedLetters(word: string)
    requires Named(word) != Invalid
    ensures word != "" && forall i | 0 <= i < |word| :: IsAlpha(word[i])
  {
  }

  // ----- keys -----

  predicate Digits(s: string) {
    forall i | 0 <= i < |s| :: '0' <= s[i] <= '9'
  }

  function Pow10(n: nat): nat {
    if n == 0 then 1 else 10 * Pow10(n - 1)
  }

  // Each digit counts for its place.
  function PlaceValue(s: string): nat {
    if s == "" then 0
    else (if '0' <= s[0] <= '9' then s[0] as int - '0' as int else 0) * Pow10(|s| - 1) + PlaceValue(s[1..])
  }

  lemma {:induction false} PlaceAppend(s: string, c: char)
    ensures PlaceValue(s + [c]) == 10 * PlaceValue(s) + PlaceValue([c])
    decreases |s|
  {
    if s == "" {
      assert s + [c] == [c];
    } else {
      PlaceAppend(s[1..], c);
      assert (s + [c])[1..] == s[1..] + [c] && (s + [c])[0] == s[0];
      TensShift(PlaceValue([s[0]]), |s| - 1);
      assert PlaceValue([s[0]]) == if '0' <= s[0] <= '9' then s[0] as int - '0' as int else 0 by {
        assert [s[0]][1..] == "";
      }
    }
  }

  lemma TensShift(d: nat, n: nat)
    ensures d * Pow10(n + 1) == 10 * (d * Pow10(n))
  {
  }

  lemma {:induction false} NumberPlaces(s: string)
    ensures Number(s) == PlaceValue(s)
    decreases |s|
  {
    if s != "" {
      var n := |s| - 1;
      NumberPlaces(s[..n]);
      PlaceAppend(s[..n], s[n]);
      assert s == s[..n] + [s[n]];
      assert [s[n]][1..] == "";
    }
  }
}
