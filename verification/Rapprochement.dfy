/** scripts/auto_rapprochement.py: `find_best_matches` and `main`, which links
    every ingredient to its best supplier products. */
module Rapprochement {
  import opened Wrappers
  import opened Text
  import opened Ranking

  datatype Ingredient = Ingredient(id: int, name: string, unit: string)

  datatype Key = Key(ingredient: int, pair: Pair)

  datatype Link = Link(key: Key, ratio: real, primary: bool)

  /** What the script reads and calls: the product catalogue, the suppliers'
      searches, the similarity and ratio functions, and whether the database
      takes a link as the n-th insert. */
  datatype World = World(
    designation: Pair -> string,
    search: (Supplier, string) -> seq<int>,
    similarity: (string, string) -> real,
    ratio: (string, string) -> real,
    accepts: (nat, Link) -> bool)

  // --------------------------------------------------------------- searches

  function MatchOf(w: World, ing: Ingredient, p: Pair): Match {
    Match(p, w.similarity(ing.name, w.designation(p)), w.ratio(ing.unit, w.designation(p)))
  }

  /** The products of one supplier that reach the threshold. */
  function Candidates(w: World, ing: Ingredient, supplier: Supplier, ids: seq<int>, threshold: real): seq<Match> {
    if ids == [] then []
    else
      var rest := Candidates(w, ing, supplier, ids[..|ids| - 1], threshold);
      var m := MatchOf(w, ing, Pair(supplier, ids[|ids| - 1]));
      if m.score >= threshold then rest + [m] else rest
  }

  /** What one search term finds, supplier by supplier. */
  function Found(w: World, ing: Ingredient, term: string): seq<Match> {
    Candidates(w, ing, METRO, w.search(METRO, term), 0.4)
    + Candidates(w, ing, TAIYAT, w.search(TAIYAT, term), 0.4)
    + Candidates(w, ing, EUROCIEL, w.search(EUROCIEL, term), 0.4)
  }

  method FindBestMatches(w: World, ing: Ingredient, metro: seq<int>, taiyat: seq<int>, eurociel: seq<int>,
                         threshold: real) returns (matches: seq<Match>)
    ensures matches == SortDesc(Candidates(w, ing, METRO, metro, threshold)
                                + Candidates(w, ing, TAIYAT, taiyat, threshold)
                                + Candidates(w, ing, EUROCIEL, eurociel, threshold))
  {
    var m := Filter(w, ing, METRO, metro, threshold, []);
    assert m == Candidates(w, ing, METRO, metro, threshold);
    m := Filter(w, ing, TAIYAT, taiyat, threshold, m);
    m := Filter(w, ing, EUROCIEL, eurociel, threshold, m);
    matches := SortDesc(m);
  }

  method Filter(w: World, ing: Ingredient, supplier: Supplier, ids: seq<int>, threshold: real, found: seq<Match>)
    returns (matches: seq<Match>)
    ensures matches == found + Candidates(w, ing, supplier, ids, threshold)
  {
    matches := found;
    for i := 0 to |ids|
      invariant matches == found + Candidates(w, ing, supplier, ids[..i], threshold)
    {
      assert ids[..i + 1][..i] == ids[..i];
      var m := MatchOf(w, ing, Pair(supplier, ids[i]));
      if m.score >= threshold {
        matches := matches + [m];
      }
    }
    assert ids[..|ids|] == ids;
  }

  /** The matches of every term long enough to be searched. */
  function AllMatches(w: World, ing: Ingredient, terms: seq<string>): seq<Match> {
    if terms == [] then []
    else
      var rest, term := AllMatches(w, ing, terms[..|terms| - 1]), terms[|terms| - 1];
      if |term| < 3 then rest else rest + SortDesc(Found(w, ing, term))
  }

  /** The same matches, in the order the searches return them. */
  function Union(w: World, ing: Ingredient, terms: seq<string>): seq<Match> {
    if terms == [] then []
    else
      var rest, term := Union(w, ing, terms[..|terms| - 1]), terms[|terms| - 1];
      if |term| < 3 then rest else rest + Found(w, ing, term)
  }

  /** Python's `split` at white space. */
  function Words(s: string): seq<string> {
    if s == "" then []
    else if IsSpace(s[0]) then Words(s[1..])
    else [s[..WordEnd(s)]] + Words(s[WordEnd(s)..])
  }

  function WordEnd(s: string): (n: nat)
    ensures n <= |s|
    ensures s != "" && !IsSpace(s[0]) ==> n > 0
    ensures forall i :: 0 <= i < n ==> !IsSpace(s[i])
    ensures n < |s| ==> IsSpace(s[n])
  {
    if s == "" || IsSpace(s[0]) then 0 else 1 + WordEnd(s[1..])
  }

  /** The first two words, then the first; `words[0]` raises when the name has
      no word. */
  function SearchTerms(name: string): Option<seq<string>> {
    var words := Words(name);
    if words == [] then None
    else Some((if |words| >= 2 then [words[0] + " " + words[1]] else []) + [words[0]])
  }

  lemma {:induction false} WordsAfterSpaces(lead: string, s: string)
    requires forall i :: 0 <= i < |lead| ==> IsSpace(lead[i])
    ensures Words(lead + s) == Words(s)
  {
    if lead == "" {
      assert lead + s == s;
    } else {
      assert (lead + s)[1..] == lead[1..] + s;
      WordsAfterSpaces(lead[1..], s);
    }
  }

  lemma {:induction false} WordEndAt(a: string, rest: string)
    requires forall i :: 0 <= i < |a| ==> !IsSpace(a[i])
    requires rest == "" || IsSpace(rest[0])
    ensures WordEnd(a + rest) == |a|
  {
    if a == "" {
      assert a + rest == rest;
    } else {
      assert (a + rest)[1..] == a[1..] + rest;
      WordEndAt(a[1..], rest);
    }
  }

  lemma FirstWord(a: string, rest: string)
    requires a != "" && forall i :: 0 <= i < |a| ==> !IsSpace(a[i])
    requires rest == "" || IsSpace(rest[0])
    ensures Words(a + rest) == [a] + Words(rest)
  {
    WordEndAt(a, rest);
    assert (a + rest)[..|a|] == a && (a + rest)[|a|..] == rest;
  }

  /** A name of several words is searched by its first two and by its first. */
  lemma TermsOfWords(lead: string, a: string, gap: string, b: string, rest: string)
    requires forall i :: 0 <= i < |lead| ==> IsSpace(lead[i])
    requires gap != "" && forall i :: 0 <= i < |gap| ==> IsSpace(gap[i])
    requires a != "" && forall i :: 0 <= i < |a| ==> !IsSpace(a[i])
    requires b != "" && forall i :: 0 <= i < |b| ==> !IsSpace(b[i])
    requires rest == "" || IsSpace(rest[0])
    ensures SearchTerms(lead + (a + (gap + (b + rest)))) == Some([a + " " + b, a])
  {
    WordsAfterSpaces(lead, a + (gap + (b + rest)));
    FirstWord(a, gap + (b + rest));
    WordsAfterSpaces(gap, b + rest);
    FirstWord(b, rest);
    var words := [a] + ([b] + Words(rest));
    assert words[0] == a && words[1] == b;
    assert [a + " " + b] + [a] == [a + " " + b, a];
  }

  /** A name of one word is searched by it, and a name of none by nothing. */
  lemma TermsOfOneWord(lead: string, a: string, tail: string)
    requires forall i :: 0 <= i < |lead| ==> IsSpace(lead[i])
    requires forall i :: 0 <= i < |tail| ==> IsSpace(tail[i])
    requires forall i :: 0 <= i < |a| ==> !IsSpace(a[i])
    ensures SearchTerms(lead + (a + tail)) == if a == "" then None else Some([a])
  {
    var none: seq<string> := [];
    WordsAfterSpaces(lead, a + tail);
    WordsAfterSpaces(tail, "");
    assert tail + "" == tail;
    if a == "" {
      assert a + tail == tail;
    } else {
      FirstWord(a, tail);
      assert [a] + Words(tail) == [a] && none + [a] == [a];
    }
  }

  function Five(w: World, ing: Ingredient, terms: seq<string>): seq<Match> {
    TopFive(Rank(AllMatches(w, ing, terms)))
  }

  lemma {:induction false} CandidatesScored(
    w: World, ing: Ingredient, supplier: Supplier, ids: seq<int>, threshold: real)
    ensures forall m :: m in Candidates(w, ing, supplier, ids, threshold) ==> m == MatchOf(w, ing, m.pair)
  {
    if ids != [] {
      CandidatesScored(w, ing, supplier, ids[..|ids| - 1], threshold);
    }
  }

  ghost predicate Scored(w: World, ing: Ingredient, s: seq<Match>) {
    forall m :: m in s ==> m == MatchOf(w, ing, m.pair)
  }

  lemma FoundScored(w: World, ing: Ingredient, term: string)
    ensures Scored(w, ing, Found(w, ing, term))
  {
    CandidatesScored(w, ing, METRO, w.search(METRO, term), 0.4);
    CandidatesScored(w, ing, TAIYAT, w.search(TAIYAT, term), 0.4);
    CandidatesScored(w, ing, EUROCIEL, w.search(EUROCIEL, term), 0.4);
  }

  lemma {:induction false} SortedUnion(w: World, ing: Ingredient, terms: seq<string>)
    ensures Scored(w, ing, AllMatches(w, ing, terms)) && Scored(w, ing, Union(w, ing, terms))
    ensures forall score :: WithScore(AllMatches(w, ing, terms), score) == WithScore(Union(w, ing, terms), score)
  {
    if terms != [] {
      var front, term := terms[..|terms| - 1], terms[|terms| - 1];
      SortedUnion(w, ing, front);
      var found := Found(w, ing, term);
      FoundScored(w, ing, term);
      forall m ensures m in SortDesc(found) <==> m in found {
        SortMembers(found, m);
      }
      forall score
        ensures WithScore(AllMatches(w, ing, front) + SortDesc(found), score)
             == WithScore(Union(w, ing, front) + found, score)
      {
        WithScoreConcat(AllMatches(w, ing, front), SortDesc(found), score);
        WithScoreConcat(Union(w, ing, front), found, score);
        SortIsStable(found, score);
      }
    }
  }

  /** Sorting each search's matches before removing duplicates changes nothing:
      the candidates are those of the plain union, ranked once. */
  lemma SearchOrderDecides(w: World, ing: Ingredient, terms: seq<string>)
    ensures Five(w, ing, terms) == TopFive(Rank(Union(w, ing, terms)))
  {
    SortedUnion(w, ing, terms);
    var f: Pair -> real := (p: Pair) => MatchOf(w, ing, p).score;
    RankByScores(AllMatches(w, ing, terms), Union(w, ing, terms), f);
  }

  /** A term long enough to be searched finds the pair, similar enough. */
  predicate Finds(w: World, ing: Ingredient, terms: seq<string>, p: Pair) {
    && w.similarity(ing.name, w.designation(p)) >= 0.4
    && exists t :: t in terms && |t| >= 3 && p.product in w.search(p.supplier, t)
  }

  lemma {:induction false} UnionMembers(w: World, ing: Ingredient, terms: seq<string>, p: Pair)
    ensures p in PairsOf(Union(w, ing, terms)) <==> Finds(w, ing, terms, p)
  {
    if terms != [] {
      var front, term := terms[..|terms| - 1], terms[|terms| - 1];
      assert terms == front + [term];
      UnionMembers(w, ing, front, p);
      FoundMembers(w, ing, term, p);
      PairsConcat(Union(w, ing, front), Found(w, ing, term));
    }
  }

  lemma PairsConcat(a: seq<Match>, b: seq<Match>)
    ensures PairsOf(a + b) == PairsOf(a) + PairsOf(b)
  {
    forall m: Match ensures m in a + b <==> m in a || m in b {
    }
  }

  lemma FoundMembers(w: World, ing: Ingredient, term: string, p: Pair)
    ensures p in PairsOf(Found(w, ing, term)) <==>
            p.product in w.search(p.supplier, term) && w.similarity(ing.name, w.designation(p)) >= 0.4
  {
    var a, b, c := Candidates(w, ing, METRO, w.search(METRO, term), 0.4),
      Candidates(w, ing, TAIYAT, w.search(TAIYAT, term), 0.4),
      Candidates(w, ing, EUROCIEL, w.search(EUROCIEL, term), 0.4);
    PairsConcat(a, b);
    PairsConcat(a + b, c);
    CandidatesMembers(w, ing, METRO, w.search(METRO, term), 0.4, p);
    CandidatesMembers(w, ing, TAIYAT, w.search(TAIYAT, term), 0.4, p);
    CandidatesMembers(w, ing, EUROCIEL, w.search(EUROCIEL, term), 0.4, p);
  }

  lemma {:induction false} CandidatesMembers(
    w: World, ing: Ingredient, supplier: Supplier, ids: seq<int>, threshold: real, p: Pair)
    ensures p in PairsOf(Candidates(w, ing, supplier, ids, threshold)) <==>
            p.supplier == supplier && p.product in ids && w.similarity(ing.name, w.designation(p)) >= threshold
  {
    if ids != [] {
      var front, id := ids[..|ids| - 1], ids[|ids| - 1];
      assert ids == front + [id];
      CandidatesMembers(w, ing, supplier, front, threshold, p);
      PairsAppend(Candidates(w, ing, supplier, front, threshold), MatchOf(w, ing, Pair(supplier, id)));
    }
  }

  /** The candidates of one ingredient are the five best distinct pairs of all
      that its searches find: no fewer while pairs are left, best score first,
      equal scores in the order of the searches. */
  lemma ExaminedAreBest(w: World, ing: Ingredient, terms: seq<string>)
    ensures var five, all := Five(w, ing, terms), Union(w, ing, terms);
            && |five| == Min(5, |PairsOf(all)|)
            && (forall m :: m in five ==> m == MatchOf(w, ing, m.pair) && Finds(w, ing, terms, m.pair))
            && (forall i, j :: 0 <= i < j < |five| ==> five[i].pair != five[j].pair && Beats(all, five[i], five[j]))
            && (forall p :: Finds(w, ing, terms, p) && p !in PairsOf(five) ==>
                  |five| == 5 && AllBeat(all, five, MatchOf(w, ing, p)))
  {
    var five, all := Five(w, ing, terms), Union(w, ing, terms);
    SearchOrderDecides(w, ing, terms);
    SortedUnion(w, ing, terms);
    BestFive(all);
    forall p ensures p in PairsOf(all) <==> Finds(w, ing, terms, p) {
      UnionMembers(w, ing, terms, p);
    }
    forall p | Finds(w, ing, terms, p) && p !in PairsOf(five)
      ensures |five| == 5 && AllBeat(all, five, MatchOf(w, ing, p))
    {
      var q :| q in all && q.pair == p && AllBeat(all, five, q);
    }
  }

  // ---------------------------------------------------------------- linking

  /** The locals of `main`; `rows` are the links inserted so far. A refused
      insert aborts the PostgreSQL transaction: every later insert is refused,
      every later search raises, and the commit keeps nothing. */
  datatype Tally = Tally(
    existing: set<Key>, rows: seq<Link>, attempts: nat, created: nat, skipped: nat, noMatch: nat, aborted: bool)

  /** A tally and `links_created`. */
  datatype Round = Round(t: Tally, links: nat)

  function LinkOne(w: World, id: int, i: nat, m: Match, r: Round): Round {
    var key, t := Key(id, m.pair), r.t;
    if key in t.existing then r.(t := t.(skipped := t.skipped + 1))
    else
      var link := Link(key, m.ratio, i == 0 && r.links == 0);
      if !t.aborted && w.accepts(t.attempts, link) then
        Round(t.(existing := t.existing + {key}, rows := t.rows + [link], attempts := t.attempts + 1,
                 created := t.created + 1), r.links + 1)
      else r.(t := t.(attempts := t.attempts + 1, aborted := true))
  }

  function LinkAll(w: World, id: int, five: seq<Match>, t: Tally): Round {
    if five == [] then Round(t, 0)
    else LinkOne(w, id, |five| - 1, five[|five| - 1], LinkAll(w, id, five[..|five| - 1], t))
  }

  /** Some term is long enough to be searched. */
  predicate Searches(terms: seq<string>) {
    exists i :: 0 <= i < |terms| && |terms[i]| >= 3
  }

  /** None when a search raises. */
  function Serve(w: World, ing: Ingredient, terms: seq<string>, t: Tally): Option<Tally> {
    if t.aborted && Searches(terms) then None
    else if Five(w, ing, terms) == [] then Some(t.(noMatch := t.noMatch + 1))
    else Some(LinkAll(w, ing.id, Five(w, ing, terms), t).t)
  }

  /** In an aborted transaction serving raises exactly when it comes to search:
      when a term has three letters or more. */
  lemma ServeRaisesIff(w: World, ing: Ingredient, terms: seq<string>, t: Tally)
    ensures Serve(w, ing, terms, t).None? <==> t.aborted && exists term :: term in terms && |term| > 2
  {
    forall term | term in terms && |term| > 2 ensures Searches(terms) {
      var i :| 0 <= i < |terms| && terms[i] == term;
    }
    if Searches(terms) {
      var i :| 0 <= i < |terms| && |terms[i]| >= 3;
      assert terms[i] in terms;
    }
  }

  /** The run over all ingredients, up to the commit; None when an exception
      rolls it back. */
  function Run(w: World, ings: seq<Ingredient>, t: Tally): Option<Tally> {
    if ings == [] then Some(t)
    else
      match Run(w, ings[..|ings| - 1], t)
      case None => None
      case Some(u) =>
        match SearchTerms(ings[|ings| - 1].name)
        case None => None
        case Some(terms) => Serve(w, ings[|ings| - 1], terms, u)
  }

  function Start(existing: set<Key>): Tally {
    Tally(existing, [], 0, 0, 0, 0, false)
  }

  /** The transaction is committed. */
  predicate Commits(outcome: Option<Tally>) {
    outcome.Some? && !outcome.value.aborted
  }

  /** The links the run leaves in the database. */
  function Kept(outcome: Option<Tally>): seq<Link> {
    if Commits(outcome) then outcome.value.rows else []
  }

  /** The search, dedupe and sort of one ingredient; None when a search raises. */
  method Examine(w: World, ing: Ingredient, terms: seq<string>, aborted: bool) returns (found: Option<seq<Match>>)
    ensures found == if aborted && Searches(terms) then None else Some(Rank(AllMatches(w, ing, terms)))
  {
    var all: seq<Match> := [];
    for i := 0 to |terms|
      invariant all == AllMatches(w, ing, terms[..i])
      invariant aborted ==> !Searches(terms[..i])
    {
      assert terms[..i + 1][..i] == terms[..i];
      if |terms[i]| < 3 {
        continue;
      }
      if aborted {
        return None;
      }
      var matches := FindBestMatches(w, ing, w.search(METRO, terms[i]), w.search(TAIYAT, terms[i]),
                                     w.search(EUROCIEL, terms[i]), 0.4);
      all := all + matches;
    }
    assert terms[..|terms|] == terms;
    var unique := Deduplicate(all);
    found := Some(SortDesc(unique));
  }

  method Deduplicate(all: seq<Match>) returns (unique: seq<Match>)
    ensures unique == Dedupe(all)
  {
    var seen: set<Pair> := {};
    unique := [];
    for i := 0 to |all|
      invariant seen == PairsOf(all[..i]) && unique == Dedupe(all[..i])
    {
      assert all[..i + 1] == all[..i] + [all[i]];
      PairsAppend(all[..i], all[i]);
      if all[i].pair !in seen {
        seen := seen + {all[i].pair};
        unique := unique + [all[i]];
      }
      assert all[..i + 1][..i] == all[..i];
    }
    assert all[..|all|] == all;
  }

  /** The link loop of one ingredient. */
  method CreateLinks(w: World, id: int, five: seq<Match>, t0: Tally) returns (t: Tally)
    ensures t == LinkAll(w, id, five, t0).t
  {
    t := t0;
    var linksCreated := 0;
    for i := 0 to |five|
      invariant Round(t, linksCreated) == LinkAll(w, id, five[..i], t0)
    {
      assert five[..i + 1][..i] == five[..i];
      var m := five[i];
      var key := Key(id, m.pair);
      if key in t.existing {
        t := t.(skipped := t.skipped + 1);
        continue;
      }
      var link := Link(key, m.ratio, i == 0 && linksCreated == 0);
      var inserted;
      t, inserted := CreateLink(w, link, t);
      if inserted {
        t := t.(existing := t.existing + {key}, created := t.created + 1);
        linksCreated := linksCreated + 1;
      }
    }
    assert five[..|five|] == five;
  }

  /** `create_link`: any failure of the insert is swallowed. */
  method CreateLink(w: World, link: Link, t0: Tally) returns (t: Tally, inserted: bool)
    ensures inserted <==> !t0.aborted && w.accepts(t0.attempts, link)
    ensures t == if inserted then t0.(attempts := t0.attempts + 1, rows := t0.rows + [link])
                 else t0.(attempts := t0.attempts + 1, aborted := true)
  {
    inserted := !t0.aborted && w.accepts(t0.attempts, link);
    t := t0.(attempts := t0.attempts + 1);
    if inserted {
      t := t.(rows := t.rows + [link]);
    } else {
      t := t.(aborted := true);
    }
  }

  /** `main`: the counters it prints, unless it prints an exception, and the
      links it leaves in the database. */
  method LinkIngredients(w: World, ingredients: seq<Ingredient>, existing: set<Key>)
    returns (printed: Option<Tally>, links: seq<Link>)
    ensures printed == Run(w, ingredients, Start(existing)) && links == Kept(printed)
  {
    var t := Start(existing);
    for n := 0 to |ingredients|
      invariant Run(w, ingredients[..n], Start(existing)) == Some(t)
    {
      assert ingredients[..n + 1][..n] == ingredients[..n];
      var ing := ingredients[n];
      var terms := SearchTerms(ing.name);
      if terms.None? {
        RunPrefix(w, ingredients, n + 1, Start(existing));
        return None, [];
      }
      RunLast(w, ingredients[..n + 1], Start(existing));
      var unique := Examine(w, ing, terms.value, t.aborted);
      if unique.None? {
        RunPrefix(w, ingredients, n + 1, Start(existing));
        return None, [];
      }
      if unique.value == [] {
        t := t.(noMatch := t.noMatch + 1);
        continue;
      }
      t := CreateLinks(w, ing.id, TopFive(unique.value), t);
    }
    assert ingredients[..|ingredients|] == ingredients;
    printed := Some(t);
    links := if t.aborted then [] else t.rows;
  }

  // ------------------------------------------------------------- properties

  lemma {:induction false} RunPrefix(w: World, ings: seq<Ingredient>, n: nat, t: Tally)
    requires n <= |ings|
    ensures Run(w, ings[..n], t).None? ==> Run(w, ings, t).None?
    decreases |ings|
  {
    if n == |ings| {
      assert ings[..n] == ings;
    } else {
      assert ings[..|ings| - 1][..n] == ings[..n];
      RunPrefix(w, ings[..|ings| - 1], n, t);
    }
  }

  predicate Blank(s: string) {
    forall i :: 0 <= i < |s| ==> IsSpace(s[i])
  }

  lemma {:induction false} NoWordsIff(s: string)
    ensures Words(s) == [] <==> Blank(s)
  {
    if s != "" && IsSpace(s[0]) {
      NoWordsIff(s[1..]);
      assert s == [s[0]] + s[1..];
    }
  }

  lemma NoneBlankLast(ings: seq<Ingredient>, ing: Ingredient)
    ensures NoneBlank(ings + [ing]) <==> NoneBlank(ings) && !Blank(ing.name)
  {
    var all := ings + [ing];
    assert forall i :: 0 <= i < |ings| ==> all[i] == ings[i];
    assert all[|ings|] == ing;
  }

  predicate NoneBlank(ings: seq<Ingredient>) {
    forall i :: 0 <= i < |ings| ==> !Blank(ings[i].name)
  }

  function KeysOf(rows: seq<Link>): set<Key> {
    if rows == [] then {} else KeysOf(rows[..|rows| - 1]) + {rows[|rows| - 1].key}
  }

  /** No row repeats another or a link of `base`. */
  predicate Fresh(rows: seq<Link>, base: set<Key>) {
    rows == [] || (
      && Fresh(rows[..|rows| - 1], base)
      && rows[|rows| - 1].key !in base + KeysOf(rows[..|rows| - 1]))
  }

  /** The tally accounts for every link made since `base`. */
  predicate Accounts(t: Tally, base: set<Key>) {
    && Fresh(t.rows, base)
    && t.existing == base + KeysOf(t.rows)
    && t.created == |t.rows|
  }

  lemma StepAccounts(w: World, id: int, i: nat, m: Match, r: Round, base: set<Key>)
    requires Accounts(r.t, base)
    ensures Accounts(LinkOne(w, id, i, m, r).t, base)
  {
    var link := Link(Key(id, m.pair), m.ratio, i == 0 && r.links == 0);
    var longer := r.t.rows + [link];
    assert longer[..|r.t.rows|] == r.t.rows && longer[|longer| - 1] == link;
  }

  lemma {:induction false} LinksAccount(w: World, id: int, five: seq<Match>, t: Tally, base: set<Key>)
    requires Accounts(t, base)
    ensures Accounts(LinkAll(w, id, five, t).t, base)
  {
    if five != [] {
      var n := |five| - 1;
      LinksAccount(w, id, five[..n], t, base);
      StepAccounts(w, id, n, five[n], LinkAll(w, id, five[..n], t), base);
    }
  }

  lemma RunLast(w: World, ings: seq<Ingredient>, t: Tally)
    requires ings != [] && Run(w, ings[..|ings| - 1], t).Some? && SearchTerms(ings[|ings| - 1].name).Some?
    ensures Run(w, ings, t)
         == Serve(w, ings[|ings| - 1], SearchTerms(ings[|ings| - 1].name).value, Run(w, ings[..|ings| - 1], t).value)
  {
  }

  lemma {:induction false} RunAccounts(w: World, ings: seq<Ingredient>, t: Tally, base: set<Key>)
    requires Accounts(t, base)
    ensures Run(w, ings, t).Some? ==> Accounts(Run(w, ings, t).value, base)
  {
    if ings != [] && Run(w, ings, t).Some? {
      var front, ing := ings[..|ings| - 1], ings[|ings| - 1];
      RunAccounts(w, front, t, base);
      var terms := SearchTerms(ing.name).value;
      LinksAccount(w, ing.id, Five(w, ing, terms), Run(w, front, t).value, base);
    }
  }

  lemma {:induction false} FreshGrowth(rows: seq<Link>, base: set<Key>)
    requires Fresh(rows, base)
    ensures |base + KeysOf(rows)| == |base| + |rows|
  {
    if rows != [] {
      var front, key := rows[..|rows| - 1], rows[|rows| - 1].key;
      FreshGrowth(front, base);
      assert base + KeysOf(rows) == (base + KeysOf(front)) + {key};
    } else {
      assert base + KeysOf(rows) == base;
    }
  }

  lemma {:induction false} FreshAt(rows: seq<Link>, base: set<Key>, i: nat)
    requires Fresh(rows, base) && i < |rows|
    ensures rows[i].key in KeysOf(rows) && rows[i].key !in base
    ensures forall j :: i < j < |rows| ==> rows[i].key != rows[j].key
  {
    var n := |rows| - 1;
    if i < n {
      FreshAt(rows[..n], base, i);
      forall j | i < j < |rows| ensures rows[i].key != rows[j].key {
        assert j < n ==> rows[..n][j] == rows[j];
      }
    }
  }

  /** The rows are links of different triples, none of `base`. */
  ghost predicate NewAndDistinct(rows: seq<Link>, base: set<Key>) {
    forall i :: 0 <= i < |rows| ==>
      && rows[i].key !in base && rows[i].key in KeysOf(rows)
      && forall j :: i < j < |rows| ==> rows[i].key != rows[j].key
  }

  lemma FreshRows(rows: seq<Link>, base: set<Key>)
    requires Fresh(rows, base)
    ensures NewAndDistinct(rows, base)
  {
    forall i | 0 <= i < |rows|
      ensures rows[i].key !in base && rows[i].key in KeysOf(rows)
      ensures forall j :: i < j < |rows| ==> rows[i].key != rows[j].key
    {
      FreshAt(rows, base, i);
    }
  }

  /** Over a whole run no triple is inserted twice or reinserted, and `created`
      is the growth of `existing_links` and the number of rows. The database
      keeps as many links as are printed if the run commits, and else none. */
  lemma RunLinksOnce(w: World, ings: seq<Ingredient>, existing: set<Key>)
    requires Run(w, ings, Start(existing)).Some?
    ensures var t := Run(w, ings, Start(existing)).value;
            && t.created == |t.rows| == |t.existing| - |existing|
            && t.existing == existing + KeysOf(t.rows)
            && NewAndDistinct(t.rows, existing)
            && |Kept(Some(t))| == if t.aborted then 0 else t.created
  {
    RunAccounts(w, ings, Start(existing), existing);
    var t := Run(w, ings, Start(existing)).value;
    FreshGrowth(t.rows, existing);
    FreshRows(t.rows, existing);
  }

  // --------------------------------------------------------- all or nothing

  /** The links the run sets out to make, whatever the database takes: of each
      ingredient's examined matches those that are not linked yet. */
  function Plan(w: World, ings: seq<Ingredient>, existing: set<Key>): seq<Link> {
    if ings == [] then [] else
      var ing := ings[|ings| - 1];
      PlanRound(ing.id, BestOf(w, ing), existing, Plan(w, ings[..|ings| - 1], existing))
  }

  function PlanRound(id: int, five: seq<Match>, existing: set<Key>, rows: seq<Link>): (r: seq<Link>)
    ensures rows <= r
  {
    if five == [] then rows else
      var n := |five| - 1;
      PlanOne(id, n, five[n], existing, PlanRound(id, five[..n], existing, rows))
  }

  function PlanOne(id: int, i: nat, m: Match, existing: set<Key>, rows: seq<Link>): (r: seq<Link>)
    ensures rows <= r
  {
    var key := Key(id, m.pair);
    if key in existing + KeysOf(rows) then rows else rows + [Link(key, m.ratio, i == 0)]
  }

  /** The database takes each of the links in its turn. */
  predicate TakesAll(w: World, rows: seq<Link>) {
    forall n :: 0 <= n < |rows| ==> w.accepts(n, rows[n])
  }

  /** Up to the first refusal the run follows the plan. */
  predicate Follows(w: World, t: Tally, existing: set<Key>, plan: seq<Link>) {
    if t.aborted then !TakesAll(w, plan)
    else t.rows == plan && t.attempts == |plan| && t.existing == existing + KeysOf(plan) && TakesAll(w, plan)
  }

  lemma {:induction false} RoundFollows(
    w: World, id: int, five: seq<Match>, t: Tally, existing: set<Key>, plan: seq<Link>)
    requires Follows(w, t, existing, plan)
    ensures Follows(w, LinkAll(w, id, five, t).t, existing, PlanRound(id, five, existing, plan))
  {
    if five != [] {
      var n := |five| - 1;
      var r, planned := LinkAll(w, id, five[..n], t), PlanRound(id, five[..n], existing, plan);
      RoundFollows(w, id, five[..n], t, existing, plan);
      StepFollows(w, id, n, five[n], r, existing, planned);
      assert LinkAll(w, id, five, t) == LinkOne(w, id, n, five[n], r);
    }
  }

  lemma StepFollows(w: World, id: int, i: nat, m: Match, r: Round, existing: set<Key>, plan: seq<Link>)
    requires Follows(w, r.t, existing, plan) && (i == 0 ==> r.links == 0)
    ensures Follows(w, LinkOne(w, id, i, m, r).t, existing, PlanOne(id, i, m, existing, plan))
  {
    var key := Key(id, m.pair);
    var link := Link(key, m.ratio, i == 0);
    var longer := plan + [link];
    assert longer[..|plan|] == plan;
    if key !in existing + KeysOf(plan) {
      TakesAppend(w, plan, link);
    }
  }

  lemma TakesAppend(w: World, rows: seq<Link>, link: Link)
    ensures TakesAll(w, rows + [link]) <==> TakesAll(w, rows) && w.accepts(|rows|, link)
  {
    var longer := rows + [link];
    assert forall n :: 0 <= n < |rows| ==> longer[n] == rows[n];
    assert longer[|rows|] == link;
  }

  lemma {:induction false} RunFollows(w: World, ings: seq<Ingredient>, existing: set<Key>)
    ensures var o := Run(w, ings, Start(existing));
      && (o.Some? ==> NoneBlank(ings) && Follows(w, o.value, existing, Plan(w, ings, existing)))
      && (o.None? ==> !NoneBlank(ings) || !TakesAll(w, Plan(w, ings, existing)))
  {
    if ings != [] {
      var n := |ings| - 1;
      var front, ing := ings[..n], ings[n];
      var plan := Plan(w, front, existing);
      RunFollows(w, front, existing);
      NoneBlankSplit(ings);
      PrefixTaken(w, plan, Plan(w, ings, existing));
      if Run(w, front, Start(existing)).Some? {
        RoundFollows(w, ing.id, BestOf(w, ing), Run(w, front, Start(existing)).value, existing, plan);
      }
    }
  }

  lemma PrefixTaken(w: World, rows: seq<Link>, more: seq<Link>)
    requires rows <= more
    ensures TakesAll(w, more) ==> TakesAll(w, rows)
  {
    assert forall n :: 0 <= n < |rows| ==> more[n] == rows[n];
  }

  /** The run commits if and only if no ingredient name is blank and no insert
      of the plan is refused. */
  lemma CommitsIff(w: World, ings: seq<Ingredient>, existing: set<Key>)
    ensures Commits(Run(w, ings, Start(existing))) <==> NoneBlank(ings) && TakesAll(w, Plan(w, ings, existing))
  {
    RunFollows(w, ings, existing);
  }

  /** It is all or nothing: the database keeps the whole plan, or no link. */
  lemma AllOrNothing(w: World, ings: seq<Ingredient>, existing: set<Key>)
    ensures Kept(Run(w, ings, Start(existing)))
         == if NoneBlank(ings) && TakesAll(w, Plan(w, ings, existing)) then Plan(w, ings, existing) else []
  {
    RunFollows(w, ings, existing);
  }

  /** A name that is one word of three letters or more. */
  predicate IsWord(s: string) {
    |s| >= 3 && forall i :: 0 <= i < |s| ==> !IsSpace(s[i])
  }

  lemma OneWord(s: string)
    requires IsWord(s)
    ensures SearchTerms(s) == Some([s])
  {
    assert WordEnd(s) == |s|;
    assert s[..|s|] == s && s[|s|..] == "";
    assert Words(s) == [s];
    var none: seq<string> := [];
    assert none + [s] == [s];
  }

  lemma Singleton(m: Match)
    ensures SortDesc([m]) == [m] == Dedupe([m]) && TopFive(Rank([m])) == [m]
  {
    assert [m][..0] == [];
  }

  /** The search for `term` finds one product. */
  ghost predicate FindsOne(w: World, term: string) {
    && w.search(METRO, term) == [1] && w.search(TAIYAT, term) == w.search(EUROCIEL, term) == []
    && forall a, b :: w.similarity(a, b) == 1.0
  }

  lemma OneProduct(w: World, ing: Ingredient)
    requires IsWord(ing.name) && FindsOne(w, ing.name)
    ensures Five(w, ing, [ing.name]) == [MatchOf(w, ing, Pair(METRO, 1))]
  {
    var m := MatchOf(w, ing, Pair(METRO, 1));
    assert [1][..0] == [] && [ing.name][..0] == [];
    assert Candidates(w, ing, METRO, [1], 0.4) == [m];
    assert Found(w, ing, ing.name) == [m];
    Singleton(m);
    assert AllMatches(w, ing, [ing.name]) == [] + [m];
  }

  lemma ServeOne(w: World, ing: Ingredient, t: Tally)
    requires IsWord(ing.name) && FindsOne(w, ing.name) && !t.aborted
    ensures Serve(w, ing, [ing.name], t)
         == Some(LinkOne(w, ing.id, 0, MatchOf(w, ing, Pair(METRO, 1)), Round(t, 0)).t)
  {
    OneProduct(w, ing);
    LinkSingle(w, ing.id, Five(w, ing, [ing.name]), MatchOf(w, ing, Pair(METRO, 1)), t);
  }

  lemma LinkSingle(w: World, id: int, five: seq<Match>, m: Match, t: Tally)
    requires five == [m]
    ensures LinkAll(w, id, five, t) == LinkOne(w, id, 0, m, Round(t, 0))
  {
    assert five[..|five| - 1] == [] && five[|five| - 1] == m;
    assert LinkAll(w, id, five[..|five| - 1], t) == Round(t, 0);
  }

  lemma RunOneMore(w: World, ings: seq<Ingredient>, ing: Ingredient, t: Tally)
    requires Run(w, ings, t).Some? && !Run(w, ings, t).value.aborted
    requires IsWord(ing.name) && FindsOne(w, ing.name)
    ensures Run(w, ings + [ing], t)
         == Some(LinkOne(w, ing.id, 0, MatchOf(w, ing, Pair(METRO, 1)), Round(Run(w, ings, t).value, 0)).t)
  {
    var all := ings + [ing];
    OneWord(ing.name);
    assert all[..|all| - 1] == ings && all[|all| - 1] == ing;
    RunLast(w, all, t);
    ServeOne(w, ing, Run(w, ings, t).value);
  }

  /** A run that prints one link created and leaves none: the second insert is
      refused, and no search follows that would raise. */
  lemma PrintsLostLink(w: World, a: Ingredient, b: Ingredient)
    requires IsWord(a.name) && b.name == a.name && FindsOne(w, a.name) && a.id != b.id
    requires forall link :: w.accepts(0, link) && !w.accepts(1, link)
    ensures var o := Run(w, [] + [a] + [b], Start({}));
      o.Some? && o.value.created == 1 && Kept(o) == []
  {
    var m, m' := MatchOf(w, a, Pair(METRO, 1)), MatchOf(w, b, Pair(METRO, 1));
    RunOneMore(w, [], a, Start({}));
    TakenThenRefused(w, a.id, m, b.id, m');
    RunOneMore(w, [] + [a], b, Start({}));
  }

  lemma TakenThenRefused(w: World, id: int, m: Match, id': int, m': Match)
    requires forall link :: w.accepts(0, link) && !w.accepts(1, link)
    requires id != id'
    ensures var first := LinkOne(w, id, 0, m, Round(Start({}), 0)).t;
      && !first.aborted
      && var second := LinkOne(w, id', 0, m', Round(first, 0)).t; second.aborted && second.created == 1
  {
    var first := LinkOne(w, id, 0, m, Round(Start({}), 0)).t;
    assert Key(id', m'.pair) !in first.existing;
  }

  /** `row` links ingredient `id` to one of its five, primary if the best. */
  predicate Made(id: int, five: seq<Match>, row: Link) {
    exists i :: 0 <= i < |five| && row == Link(Key(id, five[i].pair), five[i].ratio, i == 0)
  }

  /** An ingredient's round appends rows to its five best matches only, and
      marks as primary the best match and no other. */
  lemma {:induction false} RoundRows(w: World, id: int, five: seq<Match>, t: Tally)
    ensures var r := LinkAll(w, id, five, t);
            && t.rows <= r.t.rows && t.existing <= r.t.existing
            && r.links == |r.t.rows| - |t.rows|
            && (t.aborted ==> r.t.aborted)
            && forall k :: |t.rows| <= k < |r.t.rows| ==> Made(id, five, r.t.rows[k])
  {
    if five != [] {
      var n := |five| - 1;
      var before, r := LinkAll(w, id, five[..n], t), LinkAll(w, id, five, t);
      RoundRows(w, id, five[..n], t);
      forall k | |t.rows| <= k < |r.t.rows| ensures Made(id, five, r.t.rows[k]) {
        if k < |before.t.rows| {
          assert Made(id, five[..n], before.t.rows[k]);
          var i :| 0 <= i < n && before.t.rows[k] == Link(Key(id, five[..n][i].pair), five[..n][i].ratio, i == 0);
          assert five[..n][i] == five[i];
        } else {
          assert r.t.rows[k] == Link(Key(id, five[n].pair), five[n].ratio, n == 0);
        }
      }
    }
  }

  /** A round makes a primary link if and only if the best match was not linked
      before and its insert is taken, none having been refused. */
  lemma {:induction false} PrimaryIff(w: World, id: int, five: seq<Match>, t: Tally)
    requires five != []
    ensures (exists k :: |t.rows| <= k < |LinkAll(w, id, five, t).t.rows|
                         && LinkAll(w, id, five, t).t.rows[k].primary) <==>
            !t.aborted && Key(id, five[0].pair) !in t.existing
            && w.accepts(t.attempts, Link(Key(id, five[0].pair), five[0].ratio, true))
  {
    var n, r := |five| - 1, LinkAll(w, id, five, t);
    RoundRows(w, id, five[..n], t);
    var before := LinkAll(w, id, five[..n], t);
    if n == 0 {
      assert before == Round(t, 0);
      assert r == LinkOne(w, id, 0, five[0], before);
      assert |r.t.rows| > |t.rows| ==> r.t.rows[|t.rows|].primary;
    } else {
      PrimaryIff(w, id, five[..n], t);
      assert forall k :: |t.rows| <= k < |before.t.rows| ==> r.t.rows[k] == before.t.rows[k];
      assert forall k :: |before.t.rows| <= k < |r.t.rows| ==> !r.t.rows[k].primary;
    }
  }

  /** The examined matches of an ingredient. */
  function BestOf(w: World, ing: Ingredient): seq<Match> {
    match SearchTerms(ing.name)
    case None => []
    case Some(terms) => Five(w, ing, terms)
  }

  lemma ServeRows(w: World, ing: Ingredient, terms: seq<string>, t: Tally)
    requires Serve(w, ing, terms, t).Some?
    ensures var u := Serve(w, ing, terms, t).value;
            && t.rows <= u.rows && t.existing <= u.existing
            && forall k :: |t.rows| <= k < |u.rows| ==> Made(ing.id, Five(w, ing, terms), u.rows[k])
  {
    RoundRows(w, ing.id, Five(w, ing, terms), t);
  }

  predicate MadeForOne(w: World, ings: seq<Ingredient>, row: Link) {
    exists j :: 0 <= j < |ings| && Made(ings[j].id, BestOf(w, ings[j]), row)
  }

  lemma {:induction false} RunRows(w: World, ings: seq<Ingredient>, existing: set<Key>)
    requires Run(w, ings, Start(existing)).Some?
    ensures forall k :: 0 <= k < |Run(w, ings, Start(existing)).value.rows| ==>
              MadeForOne(w, ings, Run(w, ings, Start(existing)).value.rows[k])
  {
    if ings != [] {
      var n := |ings| - 1;
      var t, u := Run(w, ings[..n], Start(existing)).value, Run(w, ings, Start(existing)).value;
      RunRows(w, ings[..n], existing);
      ServeRows(w, ings[n], SearchTerms(ings[n].name).value, t);
      forall k | 0 <= k < |u.rows| ensures MadeForOne(w, ings, u.rows[k]) {
        if k < |t.rows| {
          assert MadeForOne(w, ings[..n], t.rows[k]);
          var j :| 0 <= j < n && Made(ings[..n][j].id, BestOf(w, ings[..n][j]), t.rows[k]);
          assert ings[..n][j] == ings[j];
        } else {
          assert Made(ings[n].id, BestOf(w, ings[n]), u.rows[k]);
        }
      }
    }
  }

  /** When ingredient ids are distinct, a run gives each ingredient at most one
      new primary link. */
  lemma OnePrimaryEach(w: World, ings: seq<Ingredient>, existing: set<Key>, i: nat, j: nat)
    requires Run(w, ings, Start(existing)).Some?
    requires forall a, b :: 0 <= a < b < |ings| ==> ings[a].id != ings[b].id
    requires i < j < |Run(w, ings, Start(existing)).value.rows|
    ensures var rows := Run(w, ings, Start(existing)).value.rows;
            rows[i].primary && rows[j].primary ==> rows[i].key.ingredient != rows[j].key.ingredient
  {
    var rows := Run(w, ings, Start(existing)).value.rows;
    RunRows(w, ings, existing);
    RunLinksOnce(w, ings, existing);
    assert MadeForOne(w, ings, rows[i]) && MadeForOne(w, ings, rows[j]);
    var a :| 0 <= a < |ings| && Made(ings[a].id, BestOf(w, ings[a]), rows[i]);
    var b :| 0 <= b < |ings| && Made(ings[b].id, BestOf(w, ings[b]), rows[j]);
    assert a == b || ings[a].id != ings[b].id;
  }

  // ------------------------------------------------------------- accounting

  function Total(w: World, ings: seq<Ingredient>): nat {
    if ings == [] then 0 else Total(w, ings[..|ings| - 1]) + |BestOf(w, ings[|ings| - 1])|
  }

  function Unmatched(w: World, ings: seq<Ingredient>): nat {
    if ings == [] then 0
    else Unmatched(w, ings[..|ings| - 1]) + (if BestOf(w, ings[|ings| - 1]) == [] then 1 else 0)
  }

  lemma {:induction false} RoundCounts(w: World, id: int, five: seq<Match>, t: Tally)
    requires t.created <= t.attempts && (t.aborted <==> t.created < t.attempts)
    ensures var u := LinkAll(w, id, five, t).t;
            && u.attempts + u.skipped == t.attempts + t.skipped + |five|
            && u.created <= u.attempts && (u.aborted <==> u.created < u.attempts)
            && u.noMatch == t.noMatch
  {
    if five != [] {
      RoundCounts(w, id, five[..|five| - 1], t);
    }
  }

  /** Every examined match is either skipped or tried; `no_match` counts the
      ingredients without any; and the printed number of links created falls
      short of the tries exactly if the links are lost. */
  lemma {:induction false} CountersAddUp(w: World, ings: seq<Ingredient>, existing: set<Key>)
    requires Run(w, ings, Start(existing)).Some?
    ensures var u := Run(w, ings, Start(existing)).value;
            && u.attempts + u.skipped == Total(w, ings)
            && u.created <= u.attempts && (u.aborted <==> u.created < u.attempts)
            && u.noMatch == Unmatched(w, ings)
  {
    if ings != [] {
      var front, ing := ings[..|ings| - 1], ings[|ings| - 1];
      CountersAddUp(w, front, existing);
      RoundCounts(w, ing.id, BestOf(w, ing), Run(w, front, Start(existing)).value);
    }
  }

  // -------------------------------------------------------------- a new run

  predicate Linked(id: int, five: seq<Match>, keys: set<Key>) {
    forall i :: 0 <= i < |five| ==> Key(id, five[i].pair) in keys
  }

  predicate AllLinked(w: World, ings: seq<Ingredient>, keys: set<Key>) {
    ings == [] || (
      && AllLinked(w, ings[..|ings| - 1], keys)
      && Linked(ings[|ings| - 1].id, BestOf(w, ings[|ings| - 1]), keys))
  }

  lemma {:induction false} LinkedGrows(w: World, ings: seq<Ingredient>, keys: set<Key>, more: set<Key>)
    requires AllLinked(w, ings, keys) && keys <= more
    ensures AllLinked(w, ings, more)
  {
    if ings != [] {
      LinkedGrows(w, ings[..|ings| - 1], keys, more);
    }
  }

  lemma {:induction false} RoundLinks(w: World, id: int, five: seq<Match>, t: Tally)
    requires !LinkAll(w, id, five, t).t.aborted
    ensures Linked(id, five, LinkAll(w, id, five, t).t.existing)
  {
    if five != [] {
      var n := |five| - 1;
      RoundLinks(w, id, five[..n], t);
      assert forall i :: 0 <= i < n ==> five[..n][i] == five[i];
    }
  }

  lemma {:induction false} RunLinksAll(w: World, ings: seq<Ingredient>, t: Tally)
    requires Commits(Run(w, ings, t))
    ensures AllLinked(w, ings, Run(w, ings, t).value.existing)
  {
    if ings != [] {
      var n := |ings| - 1;
      var u := Run(w, ings[..n], t).value;
      RoundRows(w, ings[n].id, BestOf(w, ings[n]), u);
      RunLinksAll(w, ings[..n], t);
      RoundLinks(w, ings[n].id, BestOf(w, ings[n]), u);
      LinkedGrows(w, ings[..n], u.existing, Run(w, ings, t).value.existing);
    }
  }

  lemma {:induction false} LinkedRoundIsIdle(w: World, id: int, five: seq<Match>, t: Tally)
    requires Linked(id, five, t.existing)
    ensures LinkAll(w, id, five, t) == Round(t.(skipped := t.skipped + |five|), 0)
  {
    if five != [] {
      var n := |five| - 1;
      assert forall i :: 0 <= i < n ==> five[..n][i] == five[i];
      LinkedRoundIsIdle(w, id, five[..n], t);
    }
  }

  /** From t to u nothing was tried. */
  predicate Untried(t: Tally, u: Tally) {
    && u.existing == t.existing && u.rows == t.rows
    && u.attempts == t.attempts && u.created == t.created && u.aborted == t.aborted
  }

  lemma LinkedServeIsIdle(w: World, ing: Ingredient, terms: seq<string>, t: Tally)
    requires Linked(ing.id, Five(w, ing, terms), t.existing) && !t.aborted
    ensures Serve(w, ing, terms, t).Some? && Untried(t, Serve(w, ing, terms, t).value)
  {
    LinkedRoundIsIdle(w, ing.id, Five(w, ing, terms), t);
  }

  lemma NoneBlankSplit(ings: seq<Ingredient>)
    requires ings != []
    ensures NoneBlank(ings) <==> NoneBlank(ings[..|ings| - 1]) && SearchTerms(ings[|ings| - 1].name).Some?
  {
    var front, ing := ings[..|ings| - 1], ings[|ings| - 1];
    NoWordsIff(ing.name);
    NoneBlankLast(front, ing);
    assert ings == front + [ing];
  }

  lemma {:induction false} LinkedRunIsIdle(w: World, ings: seq<Ingredient>, t: Tally)
    requires AllLinked(w, ings, t.existing) && NoneBlank(ings) && !t.aborted
    ensures Run(w, ings, t).Some? && Untried(t, Run(w, ings, t).value)
  {
    if ings != [] {
      var n := |ings| - 1;
      NoneBlankSplit(ings);
      LinkedRunIsIdle(w, ings[..n], t);
      LinkedServeIsIdle(w, ings[n], SearchTerms(ings[n].name).value, Run(w, ings[..n], t).value);
    }
  }

  /** After a run that commits, a second run over the same catalogue tries
      nothing and skips every examined match. */
  lemma SecondRunIsIdle(w: World, ings: seq<Ingredient>, existing: set<Key>)
    requires Commits(Run(w, ings, Start(existing)))
    ensures var linked := existing + KeysOf(Kept(Run(w, ings, Start(existing))));
            Run(w, ings, Start(linked)) == Some(Tally(linked, [], 0, 0, Total(w, ings), Unmatched(w, ings), false))
  {
    RunLinksOnce(w, ings, existing);
    var linked := existing + KeysOf(Kept(Run(w, ings, Start(existing))));
    RunLinksAll(w, ings, Start(existing));
    CommitsIff(w, ings, existing);
    LinkedRunIsIdle(w, ings, Start(linked));
    CountersAddUp(w, ings, linked);
  }
}
