/**
 * The render scope of `go` in index.js: the expanded cards, the page
 * geometry, the auxiliary sequences and the deck identity gathered into
 * one object, rendered once with `print` false (the tabletop sheet) and
 * once more with `print` true (the print sheet).
 */
module RenderScope {
  import opened Wrappers
  import Cards
  import Layout
  import Sequences
  import Deck

  /** The fields of the scope object that the template sees (`printSheet` is the source's `print`). */
  datatype Scope = Scope(
    cards: seq<Cards.Card>,
    pageHeight: real,
    pageWidth: real,
    cardHeight: real,
    cardWidth: real,
    columns: int,
    rows: int,
    skipPNG: bool,
    printSheet: bool,
    deck: Deck.DeckInfo,
    pageEnders: seq<int>,
    pointTokens: seq<int>,
    config: map<string, string>,
    loops: map<int, seq<int>>,
    css: Option<string>)

  /** The run's settings that `go` reads from the parsed arguments. */
  datatype Settings = Settings(
    columns: int,
    cardWidth: real,
    cardHeight: real,
    skipPNG: bool,
    deck: string,
    config: map<string, string>)

  /**
   * `go` up to the two renders: build the scope, render it, flip `print`
   * to true, render it again. `css` is the stylesheet's text when a css
   * file is configured (reading it is not modelled); `render` is the
   * compiled page template.
   */
  method Go(cards: seq<Cards.Card>, settings: Settings, css: Option<string>, render: Scope -> string)
    returns (scope: Scope, ttsResult: string, printResult: string)
    requires settings.columns > 0
    ensures !scope.printSheet
    ensures ttsResult == render(scope)
    ensures printResult == render(scope.(printSheet := true))
    ensures WellBuilt(scope, cards, settings, css)
    ensures scope.rows >= 1 && (scope.rows - 1) * settings.columns >= |cards|
    ensures scope.rows >= 2 ==> (scope.rows - 2) * settings.columns < |cards|
  {
    var rows := Layout.Rows(|cards|, settings.columns);
    scope := Scope(
      cards, rows as real * settings.cardHeight, settings.columns as real * settings.cardWidth,
      settings.cardHeight, settings.cardWidth, settings.columns, rows, settings.skipPNG, false,
      Deck.DeckInfo([], map[]), [], [], map[], map[], None);
    var pageEnders := Sequences.PageEnders();
    scope := scope.(pageEnders := pageEnders);
    var pointTokens := Sequences.PointTokens();
    scope := scope.(pointTokens := pointTokens);
    scope := scope.(config := settings.config, deck := Deck.DeckIdentity(settings.deck));
    var loops := Sequences.LoopChains();
    scope := scope.(loops := loops);
    if css.Some? {
      scope := scope.(css := css);
    }
    ttsResult := render(scope);
    var printScope := scope.(printSheet := true);
    printResult := render(printScope);
  }

  /**
   * The whole computation: the deck's definitions are expanded by the
   * reducer, and the expanded list is what `go` lays out and renders.
   */
  method Run(defs: seq<Cards.Card>, vars: Option<Cards.Vars>, subst: (string, Cards.Vars) -> string,
             settings: Settings, css: Option<string>, render: Scope -> string)
    returns (scope: Scope, ttsResult: string, printResult: string)
    requires settings.columns > 0
    ensures WellBuilt(scope, Cards.Expanded(defs, vars, subst), settings, css)
    ensures |scope.cards| == Cards.TotalCopies(defs)
    ensures scope.rows == Layout.Rows(Cards.TotalCopies(defs), settings.columns)
    ensures ttsResult == render(scope) && printResult == render(scope.(printSheet := true))
  {
    var cards := Cards.ExpandDeck(defs, vars, subst);
    scope, ttsResult, printResult := Go(cards, settings, css, render);
  }

  /** Two scopes that are well built for the same inputs are equal. */
  lemma ScopeDetermined(s1: Scope, s2: Scope, cards: seq<Cards.Card>, settings: Settings, css: Option<string>)
    requires settings.columns > 0
    requires WellBuilt(s1, cards, settings, css) && WellBuilt(s2, cards, settings, css)
    ensures s1 == s2
  {
    assert forall k :: k in s1.loops.Keys <==> k in s2.loops.Keys;
    assert s1.loops.Keys == s2.loops.Keys;
    assert forall k :: k in s1.loops ==> s1.loops[k] == s2.loops[k];
    assert s1.loops == s2.loops;
  }

  /**
   * The scope `go` builds from its inputs, `print` still false: the cards
   * as given, the page geometry, the deck identity and the fixed sequences.
   */
  ghost predicate WellBuilt(scope: Scope, cards: seq<Cards.Card>, settings: Settings, css: Option<string>)
    requires settings.columns > 0
  {
    && !scope.printSheet
    && scope.cards == cards
    && scope.columns == settings.columns && scope.skipPNG == settings.skipPNG
    && scope.cardWidth == settings.cardWidth && scope.cardHeight == settings.cardHeight
    && Layout.PageGeometry(|cards|, settings.columns, settings.cardWidth, settings.cardHeight)
         == Layout.Geometry(scope.rows, scope.pageWidth, scope.pageHeight)
    && scope.deck == Deck.DeckIdentity(settings.deck)
    && scope.pageEnders == Sequences.PageEndersSpec()
    && scope.pointTokens == Sequences.PointTokensSpec()
    && (forall k :: k in scope.loops <==> 1 <= k <= 40)
    && (forall k :: 1 <= k <= 40 ==> scope.loops[k] == Sequences.Iota(k))
    && scope.config == settings.config && scope.css == css
  }
}
