/**
 * Deck identity in index.js: the deck's name is `args.deck.split('.')[0]`,
 * and the deck tags itself with `deck.is[name] = true`.
 */
module Deck {

  /**
   * String.prototype.split with a one-character separator: the pieces
   * between separators, always at least one (the empty string splits
   * into one empty piece).
   */
  function Split(s: string, sep: char): (parts: seq<string>)
    ensures |parts| >= 1
    ensures forall p :: p in parts ==> sep !in p
  {
    if s == [] then [[]]
    else
      var rest := Split(s[1..], sep);
      if s[0] == sep then [[]] + rest
      else [[s[0]] + rest[0]] + rest[1..]
  }

  /** Pieces glued back together with the separator between them. */
  function Join(parts: seq<string>, sep: char): string
    requires |parts| >= 1
  {
    if |parts| == 1 then parts[0] else parts[0] + [sep] + Join(parts[1..], sep)
  }

  /** Splitting loses nothing: joining the pieces gives the string back. */
  lemma {:induction false} JoinSplit(s: string, sep: char)
    ensures Join(Split(s, sep), sep) == s
  {
    if s != [] {
      var rest := Split(s[1..], sep);
      JoinSplit(s[1..], sep);
      if s[0] == sep {
        var parts: seq<string> := [[]] + rest;
        assert parts[1..] == rest;
      } else {
        var parts := [[s[0]] + rest[0]] + rest[1..];
        if |rest| > 1 {
          assert parts[1..] == rest[1..];
          assert Join(rest, sep) == rest[0] + [sep] + Join(rest[1..], sep);
        }
      }
    }
  }

  /** The first piece of a split is the longest separator-free prefix. */
  lemma {:induction false} SplitHead(s: string, sep: char)
    ensures Split(s, sep)[0] <= s
    ensures |Split(s, sep)[0]| < |s| ==> s[|Split(s, sep)[0]|] == sep
  {
    if s != [] && s[0] != sep {
      SplitHead(s[1..], sep);
    }
  }

  /**
   * `args.deck.split('.')[0]`: the deck string up to its first '.', or
   * all of it when it has none.
   */
  function DeckName(deck: string): (name: string)
    ensures '.' !in name
    ensures name <= deck
    ensures |name| < |deck| ==> deck[|name|] == '.'
    ensures '.' !in deck ==> name == deck
  {
    SplitHead(deck, '.');
    Split(deck, '.')[0]
  }

  /** The deck identity of the scope: its name and its self-tag map. */
  datatype DeckInfo = DeckInfo(name: string, typeFlags: map<string, bool>)

  /** `scope.deck = {is: {}}`, then the name and `deck.is[name] = true`. */
  function DeckIdentity(deck: string): (d: DeckInfo)
    ensures d.name == DeckName(deck)
    ensures d.typeFlags.Keys == {d.name} && d.typeFlags[d.name]
  {
    var name := DeckName(deck);
    DeckInfo(name, map[name := true])
  }

  /** When the first '.' of the deck string is at position i, the name is what precedes it. */
  lemma DeckNameAtFirstDot(deck: string, i: nat)
    requires i < |deck| && deck[i] == '.' && '.' !in deck[..i]
    ensures DeckName(deck) == deck[..i]
  {
  }

  /** A deck file "monsters.js" is named "monsters". */
  lemma DeckNameExample()
    ensures DeckName("monsters.js") == "monsters"
  {
    var monsters := "monsters.js";
    assert monsters[8] == '.' && monsters[..8] == "monsters";
    assert '.' !in monsters[..8];
    DeckNameAtFirstDot(monsters, 8);
  }

  /** Only the first '.' counts: "core.v2.js" is named "core". */
  lemma DeckNameFirstDotExample()
    ensures DeckName("core.v2.js") == "core"
  {
    var core := "core.v2.js";
    assert core[4] == '.' && core[..4] == "core";
    assert '.' !in core[..4];
    DeckNameAtFirstDot(core, 4);
  }
}
