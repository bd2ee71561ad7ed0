/** The projects page: the listing it keeps from the repository response (public
    repositories only, most recently updated first) and the card each one is
    shown as, with its fallbacks for a missing language or description. The
    response is an input value; `updated_at` is an integer timestamp. */
module Projects {
  import opened Text
  import opened Js

  /** A repository as the page reads it. */
  datatype ListedRepo = ListedRepo(id: int, name: string, description: Option<string>,
                                   htmlUrl: string, language: Option<string>,
                                   updatedAt: int, private: bool)

  /** What the response body yields: a listing, or an error thrown while reading
      it (an unparsable body, or a non-array body whose `filter` throws), with
      the runtime's message. */
  datatype PageBody = BodyThrows(reason: string) | Listing(repos: seq<ListedRepo>)

  /** What `fetch` yields: a rejection with its message, or a response with its status flag. */
  datatype PageResponse = FetchRejected(reason: string) | HttpResponse(ok: bool, body: PageBody)

  datatype PageState = PageState(repos: seq<ListedRepo>, loading: bool, error: Option<string>)

  const HttpError := "Error al obtener repos"

  /** The state the page mounts with. */
  const Loading := PageState([], true, None)

  // ---------------------------------------------------------------------------
  // Filter and sort
  // ---------------------------------------------------------------------------

  /** `data.filter(repo => !repo.private)`. */
  function PublicOnly(repos: seq<ListedRepo>): (r: seq<ListedRepo>)
    ensures forall k :: 0 <= k < |r| ==> !r[k].private
    ensures |r| <= |repos|
    decreases |repos|
  {
    if |repos| == 0 then []
    else
      var rest := PublicOnly(repos[1..]);
      if repos[0].private then rest else [repos[0]] + rest
  }

  /** The filter drops every private repository and keeps each public one exactly as
      often as the input holds it. */
  lemma {:induction false} PublicOnlyCounts(repos: seq<ListedRepo>)
    ensures forall e :: multiset(PublicOnly(repos))[e] == if e.private then 0 else multiset(repos)[e]
    decreases |repos|
  {
    if |repos| > 0 {
      PublicOnlyCounts(repos[1..]);
      assert repos == [repos[0]] + repos[1..];
    }
  }

  /** `filter` keeps the input order: filtering a concatenation filters each part in
      turn, so the kept repositories appear as they do in the response. */
  lemma {:induction false} PublicOnlyAppend(xs: seq<ListedRepo>, ys: seq<ListedRepo>)
    ensures PublicOnly(xs + ys) == PublicOnly(xs) + PublicOnly(ys)
    decreases |xs|
  {
    if |xs| == 0 {
      assert xs + ys == ys;
    } else {
      assert (xs + ys)[0] == xs[0];
      assert (xs + ys)[1..] == xs[1..] + ys;
      PublicOnlyAppend(xs[1..], ys);
    }
  }

  /** Filtering `x` in front of `s` keeps `x` exactly when it is public. */
  lemma PublicOnlyCons(x: ListedRepo, s: seq<ListedRepo>)
    ensures PublicOnly([x] + s) == (if x.private then [] else [x]) + PublicOnly(s)
  {
    assert ([x] + s)[0] == x;
    assert ([x] + s)[1..] == s;
  }

  /** A single repository is kept exactly when it is public. */
  lemma PublicOnlySingle(x: ListedRepo)
    ensures PublicOnly([x]) == if x.private then [] else [x]
  {
    PublicOnlyCons(x, []);
    assert [x] + [] == [x];
  }

  /** Newest first: timestamps never increase along the list. */
  ghost predicate NewestFirst(s: seq<ListedRepo>) {
    forall i, j :: 0 <= i < j < |s| ==> s[i].updatedAt >= s[j].updatedAt
  }

  /** The repositories updated at `t`, in the order of `s`. */
  function UpdatedAt(s: seq<ListedRepo>, t: int): seq<ListedRepo>
    decreases |s|
  {
    if |s| == 0 then []
    else (if s[0].updatedAt == t then [s[0]] else []) + UpdatedAt(s[1..], t)
  }

  /** Puts `x` in front of the first repository not newer than it. */
  function InsertByRecency(x: ListedRepo, s: seq<ListedRepo>): (r: seq<ListedRepo>)
    ensures |r| == |s| + 1
    ensures r[0] == x || (|s| > 0 && r[0] == s[0])
    decreases |s|
  {
    if |s| == 0 || s[0].updatedAt <= x.updatedAt then [x] + s
    else [s[0]] + InsertByRecency(x, s[1..])
  }

  /** Insertion adds `x` and loses nothing: the result is a permutation of `s` plus `x`. */
  lemma {:induction false} InsertCounts(x: ListedRepo, s: seq<ListedRepo>)
    ensures multiset(InsertByRecency(x, s)) == multiset(s) + multiset{x}
    decreases |s|
  {
    if |s| > 0 && s[0].updatedAt > x.updatedAt {
      InsertCounts(x, s[1..]);
      assert s == [s[0]] + s[1..];
    }
  }

  /** Every repository of `s` is at least as recent as `bound`. */
  ghost predicate NoNewerThan(s: seq<ListedRepo>, bound: int) {
    forall k :: 0 <= k < |s| ==> s[k].updatedAt <= bound
  }

  /** Insertion keeps a newest-first list newest first, and adds nothing newer than
      the newer of `x` and the list's own bound. */
  lemma {:induction false} InsertKeepsOrder(x: ListedRepo, s: seq<ListedRepo>, bound: int)
    requires NewestFirst(s) && NoNewerThan(s, bound) && x.updatedAt <= bound
    ensures NewestFirst(InsertByRecency(x, s))
    ensures NoNewerThan(InsertByRecency(x, s), bound)
    decreases |s|
  {
    if |s| == 0 || s[0].updatedAt <= x.updatedAt {
    } else {
      var rest := InsertByRecency(x, s[1..]);
      assert NoNewerThan(s[1..], s[0].updatedAt);
      InsertKeepsOrder(x, s[1..], s[0].updatedAt);
      assert InsertByRecency(x, s) == [s[0]] + rest;
    }
  }

  /** The comparator sort `(a, b) => b.updated_at - a.updated_at`, stable as
      `Array.prototype.sort` is. */
  function SortByRecency(s: seq<ListedRepo>): (r: seq<ListedRepo>)
    ensures multiset(r) == multiset(s)
    ensures NewestFirst(r)
    decreases |s|
  {
    if |s| == 0 then []
    else
      assert s == [s[0]] + s[1..];
      var sorted := SortByRecency(s[1..]);
      var top := if |sorted| == 0 then s[0].updatedAt else Max(s[0].updatedAt, sorted[0].updatedAt);
      assert NoNewerThan(sorted, top);
      InsertKeepsOrder(s[0], sorted, top);
      InsertCounts(s[0], sorted);
      InsertByRecency(s[0], sorted)
  }

  function Max(a: int, b: int): int {
    if a >= b then a else b
  }

  /** Inserting `x` adds it in front of the repositories with its own timestamp and
      leaves every other timestamp's repositories as they were. */
  lemma {:induction false} InsertKeepsTies(x: ListedRepo, s: seq<ListedRepo>, t: int)
    ensures UpdatedAt(InsertByRecency(x, s), t)
         == (if x.updatedAt == t then [x] else []) + UpdatedAt(s, t)
    decreases |s|
  {
    if |s| == 0 || s[0].updatedAt <= x.updatedAt {
      assert InsertByRecency(x, s) == [x] + s;
      UpdatedAtCons(x, s, t);
    } else {
      var rest := InsertByRecency(x, s[1..]);
      var u := UpdatedAt(s[1..], t);
      assert InsertByRecency(x, s) == [s[0]] + rest;
      InsertKeepsTies(x, s[1..], t);
      UpdatedAtCons(s[0], rest, t);
      if s[0].updatedAt == t {
        assert x.updatedAt != t;
        assert UpdatedAt(s, t) == [s[0]] + u;
      } else {
        assert UpdatedAt(s, t) == u;
      }
    }
  }

  /** Picking a timestamp from `x` in front of `s` keeps `x` exactly when it carries it. */
  lemma UpdatedAtCons(x: ListedRepo, s: seq<ListedRepo>, t: int)
    ensures UpdatedAt([x] + s, t) == (if x.updatedAt == t then [x] else []) + UpdatedAt(s, t)
  {
    assert ([x] + s)[0] == x;
    assert ([x] + s)[1..] == s;
  }

  /** The sort is stable: for every timestamp, the repositories carrying it come out
      in the order they went in. */
  lemma {:induction false} SortIsStable(s: seq<ListedRepo>, t: int)
    ensures UpdatedAt(SortByRecency(s), t) == UpdatedAt(s, t)
    decreases |s|
  {
    if |s| > 0 {
      SortIsStable(s[1..], t);
      InsertKeepsTies(s[0], SortByRecency(s[1..]), t);
    }
  }

  /** Filtering and picking one timestamp commute: the public repositories updated
      at `t` are the same, in the same order, whichever is done first. */
  lemma {:induction false} PublicOnlyUpdatedAt(s: seq<ListedRepo>, t: int)
    ensures UpdatedAt(PublicOnly(s), t) == PublicOnly(UpdatedAt(s, t))
    decreases |s|
  {
    if |s| > 0 {
      PublicOnlyUpdatedAt(s[1..], t);
      var head := if s[0].updatedAt == t then [s[0]] else [];
      assert UpdatedAt(s, t) == head + UpdatedAt(s[1..], t);
      PublicOnlyAppend(head, UpdatedAt(s[1..], t));
      if !s[0].private {
        assert PublicOnly(s) == [s[0]] + PublicOnly(s[1..]);
        assert ([s[0]] + PublicOnly(s[1..]))[1..] == PublicOnly(s[1..]);
      }
    }
  }

  /** The listing the page keeps from a successful response. */
  function Shown(data: seq<ListedRepo>): (r: seq<ListedRepo>)
    ensures NewestFirst(r)
    ensures forall e :: multiset(r)[e] == if e.private then 0 else multiset(data)[e]
  {
    PublicOnlyCounts(data);
    SortByRecency(PublicOnly(data))
  }

  /** The kept listing holds no private repository, holds every public one as many
      times as the response does, is newest first, and lists the public repositories
      updated at any one time in the order the response gives them. */
  lemma ShownSpec(data: seq<ListedRepo>)
    ensures forall k :: 0 <= k < |Shown(data)| ==> !Shown(data)[k].private
    ensures forall e :: multiset(Shown(data))[e] == if e.private then 0 else multiset(data)[e]
    ensures NewestFirst(Shown(data))
    ensures forall t :: UpdatedAt(Shown(data), t) == PublicOnly(UpdatedAt(data, t))
  {
    var p := PublicOnly(data);
    forall k | 0 <= k < |Shown(data)| ensures !Shown(data)[k].private {
      assert Shown(data)[k] in multiset(p);
    }
    forall t ensures UpdatedAt(Shown(data), t) == PublicOnly(UpdatedAt(data, t)) {
      SortIsStable(p, t);
      PublicOnlyUpdatedAt(data, t);
    }
  }

  // ---------------------------------------------------------------------------
  // Loading
  // ---------------------------------------------------------------------------

  /** The `useEffect` chain: a failed status throws the fixed message before the
      body is read, any other throw keeps its own message, and `finally` ends
      the loading state in every outcome. */
  function Load(response: PageResponse): (p: PageState)
    ensures !p.loading
    ensures p.error.None? ==> response.HttpResponse? && response.ok && response.body.Listing?
    ensures response.HttpResponse? && !response.ok ==> p == PageState([], false, Some(HttpError))
    ensures p.error.Some? ==> p.repos == []
    ensures response.FetchRejected? ==> p.error == Some(response.reason)
    ensures response.HttpResponse? && response.ok && response.body.BodyThrows?
      ==> p.error == Some(response.body.reason)
    ensures response.HttpResponse? && response.ok && response.body.Listing?
      ==> p.error.None? && p.repos == Shown(response.body.repos)
  {
    match response
    case FetchRejected(reason) => PageState([], false, Some(reason))
    case HttpResponse(ok, body) =>
      if !ok then PageState([], false, Some(HttpError))
      else match body
        case BodyThrows(reason) => PageState([], false, Some(reason))
        case Listing(data) => PageState(Shown(data), false, None)
  }

  // ---------------------------------------------------------------------------
  // Cards
  // ---------------------------------------------------------------------------

  datatype Icon = CodeIcon | DatabaseIcon | GlobeIcon | RocketIcon

  datatype LanguageStyle = LanguageStyle(style: string, icon: Icon, emoji: string)

  const DefaultStyle := LanguageStyle("bg-slate-700/30 text-slate-300 border-slate-600", CodeIcon, "📦")
  const StyledLanguages: set<string> := {"JavaScript", "TypeScript", "PHP", "Astro", "Blade"}

  /** The label a card shows: the language, or `"Otro"` when it is falsy. */
  function DisplayedLanguage(r: ListedRepo): (shown: string)
    ensures |shown| > 0
    ensures Truthy(r.language) ==> shown == r.language.value
    ensures !Truthy(r.language) ==> shown == "Otro"
  {
    OrElse(r.language, "Otro")
  }

  /** The text under a card's title: the description, or a placeholder when it is falsy. */
  function DisplayedDescription(r: ListedRepo): (text: string)
    ensures |text| > 0
    ensures Truthy(r.description) ==> text == r.description.value
    ensures !Truthy(r.description) ==> text == "📭 Sin descripción"
  {
    OrElse(r.description, "📭 Sin descripción")
  }

  /** `languageStyles[lang] || default`. */
  function StyleFor(lang: string): (st: LanguageStyle)
    ensures lang !in StyledLanguages ==> st == DefaultStyle
    ensures lang in StyledLanguages ==> st.emoji != DefaultStyle.emoji && st.style != DefaultStyle.style
  {
    match lang
    case "JavaScript" => LanguageStyle("bg-yellow-500/20 text-yellow-300 border-yellow-400/40", CodeIcon, "⚡")
    case "TypeScript" => LanguageStyle("bg-blue-500/20 text-blue-300 border-blue-400/40", CodeIcon, "🔷")
    case "PHP" => LanguageStyle("bg-purple-600/20 text-purple-300 border-purple-500/40", DatabaseIcon, "🐘")
    case "Astro" => LanguageStyle("bg-pink-600/20 text-pink-300 border-pink-500/40", GlobeIcon, "🌌")
    case "Blade" => LanguageStyle("bg-red-600/20 text-red-300 border-red-500/40", RocketIcon, "🎯")
    case _ => DefaultStyle
  }

  /** A label gets the default style, recognisable by its `📦` emoji, exactly when it
      is not one of the five keyed languages; the `"Otro"` fallback is among those. */
  lemma DefaultStyleExactlyForUnkeyed(lang: string)
    ensures StyleFor(lang).emoji == "📦" <==> lang !in StyledLanguages
    ensures lang !in StyledLanguages ==> StyleFor(lang) == DefaultStyle
    ensures StyleFor("Otro") == DefaultStyle
  {
  }

  datatype Card = Card(key: int, href: string, ariaLabel: string, emoji: string, title: string,
                       description: string, languageLabel: string, style: string, icon: Icon)

  /** The card of one repository: its id as key, its link, its name as title and in
      the aria label, the displayed language and description, and the look of that
      language label. */
  function CardFor(r: ListedRepo): (c: Card)
    ensures c.key == r.id && c.href == r.htmlUrl && c.title == r.name
    ensures c.ariaLabel == "Ir al proyecto " + r.name
    ensures c.languageLabel == DisplayedLanguage(r) && c.description == DisplayedDescription(r)
    ensures c.emoji == StyleFor(c.languageLabel).emoji && c.style == StyleFor(c.languageLabel).style
    ensures c.icon == StyleFor(c.languageLabel).icon
  {
    var lang := DisplayedLanguage(r);
    var st := StyleFor(lang);
    Card(r.id, r.htmlUrl, "Ir al proyecto " + r.name, st.emoji, r.name,
         DisplayedDescription(r), lang, st.style, st.icon)
  }

  /** What the page renders: six skeleton boxes while loading, the error line when
      the error is truthy, the grid of cards otherwise. */
  datatype PageView = Skeleton(boxes: nat) | ErrorLine(text: string) | Grid(cards: seq<Card>)

  function Render(p: PageState): (v: PageView)
    ensures p.loading <==> v.Skeleton?
    ensures v.Skeleton? ==> v.boxes == 6
    ensures !p.loading && Truthy(p.error) ==> v == ErrorLine("❌ " + p.error.value)
    ensures v.Grid? <==> !p.loading && !Truthy(p.error)
    ensures v.Grid? ==> |v.cards| == |p.repos|
    ensures v.Grid? ==> forall k :: 0 <= k < |p.repos| ==>
      && v.cards[k].key == p.repos[k].id
      && v.cards[k].href == p.repos[k].htmlUrl
      && v.cards[k].title == p.repos[k].name
      && v.cards[k].ariaLabel == "Ir al proyecto " + p.repos[k].name
      && v.cards[k].languageLabel == DisplayedLanguage(p.repos[k])
      && v.cards[k].description == DisplayedDescription(p.repos[k])
      && v.cards[k].emoji == StyleFor(v.cards[k].languageLabel).emoji
      && v.cards[k].style == StyleFor(v.cards[k].languageLabel).style
      && v.cards[k].icon == StyleFor(v.cards[k].languageLabel).icon
  {
    if p.loading then Skeleton(6)
    else if Truthy(p.error) then ErrorLine("❌ " + p.error.value)
    else Grid(seq(|p.repos|, k requires 0 <= k < |p.repos| => CardFor(p.repos[k])))
  }

  /** After the response is handled the skeleton is gone: a non-ok status shows the
      fixed error line, a rejection or a body that throws shows its message (an
      empty message is falsy, so the page falls through to an empty grid), and a
      good listing shows one card per public repository, newest first. */
  lemma LoadedPageView(response: PageResponse)
    ensures !Render(Load(response)).Skeleton?
    ensures response.HttpResponse? && !response.ok ==> Render(Load(response)) == ErrorLine("❌ " + HttpError)
    ensures response.FetchRejected? && |response.reason| > 0
      ==> Render(Load(response)) == ErrorLine("❌ " + response.reason)
    ensures response.FetchRejected? && |response.reason| == 0 ==> Render(Load(response)) == Grid([])
    ensures response.HttpResponse? && response.ok && response.body.BodyThrows? && |response.body.reason| > 0
      ==> Render(Load(response)) == ErrorLine("❌ " + response.body.reason)
    ensures response.HttpResponse? && response.ok && response.body.BodyThrows? && |response.body.reason| == 0
      ==> Render(Load(response)) == Grid([])
    ensures response.HttpResponse? && response.ok && response.body.Listing? ==>
      var v := Render(Load(response));
      && v.Grid?
      && |v.cards| == |Shown(response.body.repos)|
      && forall k :: 0 <= k < |v.cards| ==> v.cards[k] == CardFor(Shown(response.body.repos)[k])
  {
  }

  /** The page mounts showing the six skeleton boxes. */
  lemma MountShowsSkeleton()
    ensures Render(Loading) == Skeleton(6)
    ensures Loading.repos == [] && Loading.error.None?
  {
  }

  /** Every card shows a non-empty language label and a non-empty description, and the
      `📦` emoji exactly when its label has no dedicated style. */
  lemma CardFallbacks(r: ListedRepo)
    ensures |CardFor(r).languageLabel| > 0 && |CardFor(r).description| > 0
    ensures !Truthy(r.language) ==> CardFor(r).languageLabel == "Otro" && CardFor(r).emoji == "📦"
    ensures CardFor(r).emoji == "📦" <==> DisplayedLanguage(r) !in StyledLanguages
  {
    DefaultStyleExactlyForUnkeyed(DisplayedLanguage(r));
  }
}
