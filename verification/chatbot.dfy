/** The chat widget's decision logic: the keyword intent resolver and the reply
    builder of `handleUserMessage`. The repository fetch is an input value
    (`FetchOutcome`), so a reply is a pure function of the typed message and
    what the fetch would have produced. */
module ChatBot {
  import opened Text
  import opened Js

  datatype Sender = User | Bot

  /** One transcript entry; an unset `isHtml` is `false`. */
  datatype Message = Message(from: Sender, text: string, isHtml: bool)

  /** A repository as the chat reads it from the listing endpoint. */
  datatype Repo = Repo(id: int, name: string, htmlUrl: string,
                       description: Option<string>, language: Option<string>)

  /** The parsed JSON body: the code only asks whether it is an array. */
  datatype JsonBody = NotArray | Array(items: seq<Repo>)

  /** What `fetch` followed by `res.json()` yields: a thrown error (network
      failure or an unparsable body) or a parsed body, whatever the status. */
  datatype FetchOutcome = Threw | Json(body: JsonBody)

  datatype Intent = Projects | About | Contact | Unresolved

  datatype ContactEntry = ContactEntry(caption: string, url: string, icon: string)

  /** A bot reply together with the number of GET requests issued to compute it. */
  datatype Turn = Turn(reply: Message, requests: nat)

  const ProjectKeywords: seq<string> := ["proyectos", "repos", "trabajos"]
  const AboutKeywords: seq<string> := ["quién eres", "eres", "sobre ti"]
  const ContactKeywords: seq<string> := ["contacto", "contactarte", "contactarme", "contigo"]

  /** The three quick questions, the only messages the widget's buttons send. */
  const PredefinedQuestions: seq<string> :=
    ["¿Cuáles son los proyectos?", "¿Quién eres?", "¿Cómo puedo contactarte?"]

  const Contacts: seq<ContactEntry> := [
    ContactEntry("Email", "mailto:trenadohernandezsalvador@gmail.com", "📧"),
    ContactEntry("LinkedIn", "https://www.linkedin.com/in/salvador-trenado-5995942aa/", "🔗"),
    ContactEntry("GitHub", "https://github.com/tore234", "💻")
  ]

  const NotUnderstood := Message(Bot, "No entendí tu pregunta 🤔", false)
  const NoProjects := Message(Bot, "No encontré proyectos en tu GitHub 😅", false)
  const ConnectionProblem := Message(Bot, "Hubo un problema al conectar con GitHub 🚨", false)
  const AboutMe := Message(Bot,
    "Soy <b>Salvador Trenado Hernández</b>, ingeniero en desarrollo y gestión de software 🚀", true)

  /** At most this many repositories are listed in a reply. */
  const MaxListed := 5
  const EntrySeparator := "\n\n"
  const ContactSeparator := "<br/>"
  const NoDescription := "Sin descripción"

  const AnchorOpen := "• <a href=\""
  const LinkAttrs := " target=\"_blank\" class=\"text-sky-600 underline\">"

  // ---------------------------------------------------------------------------
  // Intent resolver
  // ---------------------------------------------------------------------------

  /** Some keyword of `kws` is a contiguous substring of `msg`. */
  ghost predicate AnyKeyword(msg: string, kws: seq<string>) {
    exists j :: 0 <= j < |kws| && IsSubstring(kws[j], msg)
  }

  /** `kws.some(kw => msg.includes(kw))`. */
  function MatchIntent(msg: string, kws: seq<string>): (r: bool)
    ensures r <==> AnyKeyword(msg, kws)
  {
    if |kws| == 0 then false
    else if Includes(msg, kws[0]) then true
    else
      assert forall j :: 1 <= j < |kws| ==> kws[j] == kws[1..][j - 1];
      MatchIntent(msg, kws[1..])
  }

  /** The branch chain of `handleUserMessage` on the lowered message: projects
      keywords first, then about, then contact. */
  function Resolve(lowered: string): (r: Intent)
    ensures r == Projects <==> AnyKeyword(lowered, ProjectKeywords)
    ensures r == About <==> !AnyKeyword(lowered, ProjectKeywords) && AnyKeyword(lowered, AboutKeywords)
    ensures r == Contact <==>
      !AnyKeyword(lowered, ProjectKeywords) && !AnyKeyword(lowered, AboutKeywords)
      && AnyKeyword(lowered, ContactKeywords)
    ensures r == Unresolved <==>
      !AnyKeyword(lowered, ProjectKeywords) && !AnyKeyword(lowered, AboutKeywords)
      && !AnyKeyword(lowered, ContactKeywords)
  {
    if MatchIntent(lowered, ProjectKeywords) then Projects
    else if MatchIntent(lowered, AboutKeywords) then About
    else if MatchIntent(lowered, ContactKeywords) then Contact
    else Unresolved
  }

  // ---------------------------------------------------------------------------
  // Reply builder
  // ---------------------------------------------------------------------------

  /** `(${language})` when the language is truthy, nothing otherwise. */
  function LanguageTag(language: Option<string>): string {
    if Truthy(language) then "(" + language.value + ")" else ""
  }

  /** One listed repository: a bullet and a link whose text is the name, a space,
      the language tag, a line break, and the description or a placeholder. */
  function EntryLine(r: Repo): (line: string)
    ensures |AnchorOpen| + |r.htmlUrl| <= |line|
    ensures line[..|AnchorOpen|] == AnchorOpen
    ensures line[|AnchorOpen|..|AnchorOpen| + |r.htmlUrl|] == r.htmlUrl
    ensures var d := OrElse(r.description, NoDescription);
      |d| < |line| && line[|line| - |d| - 1..] == "\n" + d
  {
    var d := OrElse(r.description, NoDescription);
    EntryFrame(AnchorOpen, r.htmlUrl, "\"", LinkAttrs, r.name, "</a> ", LanguageTag(r.language), d);
    AnchorOpen + (r.htmlUrl + "\"" + LinkAttrs + r.name + "</a> " + (LanguageTag(r.language) + "\n" + d))
  }

  /** Where the opening, the URL and the closing line break with its text sit in a
      line laid out as an entry is, whatever the pieces hold. */
  lemma EntryFrame(open: string, url: string, quote: string, attrs: string, name: string,
                   close: string, tag: string, d: string)
    ensures var t := open + (url + quote + attrs + name + close + (tag + "\n" + d));
      && |open| + |url| <= |t| && |d| < |t|
      && t[..|open|] == open
      && t[|open|..|open| + |url|] == url
      && t[|t| - |d| - 1..] == "\n" + d
  {
    var link := url + quote + attrs + name + close;
    var tail := tag + "\n" + d;
    var t := open + (link + tail);
    assert t[|open|..|open| + |url|] == link[..|url|];
    assert t[|t| - |d| - 1..] == tail[|tail| - |d| - 1..];
  }

  /** The entries of the repositories listed, in the order received. */
  function EntryLines(repos: seq<Repo>): (lines: seq<string>)
    ensures |lines| == |repos|
    ensures forall k :: 0 <= k < |repos| ==> lines[k] == EntryLine(repos[k])
  {
    seq(|repos|, k requires 0 <= k < |repos| => EntryLine(repos[k]))
  }

  function Min(a: int, b: int): int {
    if a <= b then a else b
  }

  /** The reply for a parsed body on the projects branch. */
  function ProjectsReply(body: JsonBody): Message {
    if body.Array? && |body.items| > 0 then
      Message(Bot, Join(EntryLines(body.items[..Min(MaxListed, |body.items|)]), EntrySeparator), true)
    else
      NoProjects
  }

  function ContactLine(c: ContactEntry): string {
    c.icon + " <a href=\"" + c.url + "\"" + LinkAttrs
      + c.caption + "</a>"
  }

  function ContactLines(cs: seq<ContactEntry>): (lines: seq<string>)
    ensures |lines| == |cs|
    ensures forall k :: 0 <= k < |cs| ==> lines[k] == ContactLine(cs[k])
  {
    seq(|cs|, k requires 0 <= k < |cs| => ContactLine(cs[k]))
  }

  const ContactCard := Message(Bot, Join(ContactLines(Contacts), ContactSeparator), true)

  /** The reply chosen for a resolved intent; the fetch outcome is consulted on the
      projects branch only. */
  function ReplyFor(intent: Intent, outcome: FetchOutcome): Message {
    match intent
    case Projects => (match outcome
                      case Threw => ConnectionProblem
                      case Json(body) => ProjectsReply(body))
    case About => AboutMe
    case Contact => ContactCard
    case Unresolved => NotUnderstood
  }

  ghost predicate AsksProjects(msg: string) { AnyKeyword(ToLowerCase(msg), ProjectKeywords) }
  ghost predicate AsksAbout(msg: string) { AnyKeyword(ToLowerCase(msg), AboutKeywords) }
  ghost predicate AsksContact(msg: string) { AnyKeyword(ToLowerCase(msg), ContactKeywords) }

  /** What one call of `handleUserMessage(msg)` computes before touching the transcript. */
  function HandleMessage(msg: string, outcome: FetchOutcome): (t: Turn)
    ensures t.reply.from == Bot
    ensures t.requests == (if AsksProjects(msg) then 1 else 0)
    ensures AsksProjects(msg) && outcome == Threw ==> t.reply == ConnectionProblem
    ensures AsksProjects(msg) && outcome == Json(NotArray) ==> t.reply == NoProjects
    ensures AsksProjects(msg) && outcome == Json(Array([])) ==> t.reply == NoProjects
    ensures AsksProjects(msg) && outcome.Json? && outcome.body.Array? && |outcome.body.items| > 0
      ==> t.reply.isHtml
    ensures !AsksProjects(msg) && AsksAbout(msg) ==> t.reply == AboutMe
    ensures !AsksProjects(msg) && !AsksAbout(msg) && AsksContact(msg) ==> t.reply == ContactCard
    ensures !AsksProjects(msg) && !AsksAbout(msg) && !AsksContact(msg) ==> t.reply == NotUnderstood
  {
    var intent := Resolve(ToLowerCase(msg));
    Turn(ReplyFor(intent, outcome), if intent == Projects then 1 else 0)
  }

  // ---------------------------------------------------------------------------
  // Properties of the replies
  // ---------------------------------------------------------------------------

  /** Without a projects keyword nothing is fetched, so the reply cannot depend on
      what a fetch would have returned. */
  lemma NoFetchWithoutProjectsKeyword(msg: string, o1: FetchOutcome, o2: FetchOutcome)
    requires !AsksProjects(msg)
    ensures HandleMessage(msg, o1) == HandleMessage(msg, o2)
    ensures HandleMessage(msg, o1).requests == 0
  {
  }

  /** Plain text replies are exactly the three fallbacks; the rest carry markup. */
  lemma PlainRepliesAreFallbacks(msg: string, outcome: FetchOutcome)
    ensures var r := HandleMessage(msg, outcome).reply;
      !r.isHtml <==> r == NotUnderstood || r == NoProjects || r == ConnectionProblem
  {
  }

  /** On the projects branch with a non-empty array the reply lists the first
      `min(5, n)` repositories in the order received, one entry each, separated
      by a blank line. */
  lemma ListedReplyLayout(msg: string, items: seq<Repo>)
    requires AsksProjects(msg) && |items| > 0
    ensures var r := HandleMessage(msg, Json(Array(items))).reply;
      var shown := Min(MaxListed, |items|);
      && r.isHtml
      && 1 <= shown <= MaxListed
      && JoinedBy(r.text, EntryLines(items[..shown]), EntrySeparator)
      && (forall k :: 0 <= k < shown ==> EntryLines(items[..shown])[k] == EntryLine(items[k]))
  {
    var shown := Min(MaxListed, |items|);
    JoinLayout(EntryLines(items[..shown]), EntrySeparator, HandleMessage(msg, Json(Array(items))).reply.text);
  }

  /** The contact reply is one line per contact, in the declared order, separated by `<br/>`. */
  lemma ContactCardLayout()
    ensures ContactCard.isHtml && ContactCard.from == Bot
    ensures |ContactLines(Contacts)| == 3
    ensures JoinedBy(ContactCard.text, ContactLines(Contacts), ContactSeparator)
  {
    JoinLayout(ContactLines(Contacts), ContactSeparator, ContactCard.text);
  }

  // ---------------------------------------------------------------------------
  // Reading an entry back
  // ---------------------------------------------------------------------------

  /** What a reader of one entry sees: link target, link text, the language in
      parentheses if shown, and the text under it. */
  datatype EntryView = EntryView(url: string, name: string, language: Option<string>, description: string)

  /** The language an entry shows: only a truthy one. */
  function ShownLanguage(language: Option<string>): (r: Option<string>)
    ensures r.Some? <==> Truthy(language)
    ensures r.Some? ==> r == language
  {
    if Truthy(language) then language else None
  }

  /** Reads an entry line back into its fields. */
  function ParseEntry(line: string): Option<EntryView> {
    var afterOpen :- StripPrefix(AnchorOpen, line);
    var link :- ParseLink(afterOpen);
    var tail :- ParseTail(link.2);
    Some(EntryView(link.0, link.1, tail.0, tail.1))
  }

  /** Reads the link after `<a href="`: its target, its text, and what follows `</a> `. */
  function ParseLink(s: string): Option<(string, string, string)> {
    var url :- SplitAt(s, '"');
    var afterAttrs :- StripPrefix(LinkAttrs, url.1);
    var name :- SplitAt(afterAttrs, '<');
    var afterClose :- StripPrefix("/a> ", name.1);
    Some((url.0, name.0, afterClose))
  }

  /** Reads what follows the link: an optional `(language)`, a line break, the description. */
  function ParseTail(s: string): Option<(Option<string>, string)> {
    if |s| > 0 && s[0] == '(' then
      var language :- SplitAt(s[1..], ')');
      var description :- StripPrefix("\n", language.1);
      Some((Some(language.0), description))
    else
      var description :- StripPrefix("\n", s);
      Some((None, description))
  }

  /** Fields an entry can be read back from: the URL has no quote, the name no `<`
      and the language no `)`. GitHub's own names and language labels satisfy this. */
  predicate Readable(r: Repo) {
    '"' !in r.htmlUrl && '<' !in r.name && (r.language.Some? ==> ')' !in r.language.value)
  }

  /** Every entry carries its repository's link, name as link text, language in
      parentheses exactly when it is truthy, and the description or the placeholder. */
  lemma EntryRoundTrip(r: Repo)
    requires Readable(r)
    ensures ParseEntry(EntryLine(r))
         == Some(EntryView(r.htmlUrl, r.name, ShownLanguage(r.language), OrElse(r.description, NoDescription)))
  {
    var desc := OrElse(r.description, NoDescription);
    var tail := LanguageTag(r.language) + "\n" + desc;
    EntryLineShape(r);
    LinkRoundTrip(r.htmlUrl, r.name, tail);
    TailRoundTrip(r.language, desc);
    ParseEntryOf(r.htmlUrl + "\"" + LinkAttrs + r.name + "</a> " + tail);
  }

  /** An entry line is the anchor opening followed by the link and the text after it. */
  lemma EntryLineShape(r: Repo)
    ensures EntryLine(r) == AnchorOpen + (r.htmlUrl + "\"" + LinkAttrs + r.name + "</a> "
                              + (LanguageTag(r.language) + "\n" + OrElse(r.description, NoDescription)))
  {
  }

  /** Reading an entry is reading the link after the anchor opening, then the tail. */
  lemma ParseEntryOf(afterOpen: string)
    ensures ParseEntry(AnchorOpen + afterOpen)
         == match ParseLink(afterOpen)
            case None => None
            case Some(link) =>
              match ParseTail(link.2)
              case None => None
              case Some(tail) => Some(EntryView(link.0, link.1, tail.0, tail.1))
  {
    StripPrefixOf(AnchorOpen, afterOpen);
  }

  /** The link gives back its target, its text and what follows it. */
  lemma LinkRoundTrip(url: string, name: string, rest: string)
    requires '"' !in url && '<' !in name
    ensures ParseLink(url + "\"" + LinkAttrs + name + "</a> " + rest) == Some((url, name, rest))
  {
    var afterClose := "/a> " + rest;
    var afterAttrs := name + ['<'] + afterClose;
    var afterUrl := LinkAttrs + afterAttrs;
    assert "</a> " == ['<'] + "/a> ";
    assert "\"" == ['"'];
    assert url + "\"" + LinkAttrs + name + "</a> " + rest == url + ['"'] + afterUrl;
    SplitAtOf(url, '"', afterUrl);
    StripPrefixOf(LinkAttrs, afterAttrs);
    SplitAtOf(name, '<', afterClose);
    StripPrefixOf("/a> ", rest);
  }

  /** The text after the link gives back the shown language and the description. */
  lemma TailRoundTrip(language: Option<string>, desc: string)
    requires language.Some? ==> ')' !in language.value
    ensures ParseTail(LanguageTag(language) + "\n" + desc) == Some((ShownLanguage(language), desc))
  {
    if Truthy(language) {
      TailWithLanguage(language.value, desc);
    } else {
      TailWithoutLanguage(desc);
    }
  }

  /** A tail with a language in parentheses reads back as that language and the text. */
  lemma TailWithLanguage(lang: string, desc: string)
    requires ')' !in lang
    ensures ParseTail("(" + lang + ")" + "\n" + desc) == Some((Some(lang), desc))
  {
    var rest := "\n" + desc;
    var s := "(" + lang + ")" + "\n" + desc;
    StripPrefixOf("\n", desc);
    assert s == ['('] + (lang + [')'] + rest);
    assert s[1..] == lang + [')'] + rest;
    SplitAtOf(lang, ')', rest);
  }

  /** A tail without a language reads back as no language and the text. */
  lemma TailWithoutLanguage(desc: string)
    ensures ParseTail("" + "\n" + desc) == Some((None, desc))
  {
    StripPrefixOf("\n", desc);
    assert "" + "\n" + desc == "\n" + desc;
  }

  // ---------------------------------------------------------------------------
  // The quick questions and worked examples
  // ---------------------------------------------------------------------------

  /** A keyword holding a character the text lacks is not a substring of it. */
  lemma MissingCharacter(kw: string, s: string, c: char)
    requires c in kw && c !in s
    ensures !IsSubstring(kw, s)
  {
  }

  /** The first quick question lists the projects. */
  lemma ProjectsQuestionResolves()
    ensures Resolve(ToLowerCase(PredefinedQuestions[0])) == Projects
  {
    var q := ToLowerCase(PredefinedQuestions[0]);
    assert q == "¿cuáles son los proyectos?";
    assert OccursAt(q, ProjectKeywords[0], 16);
  }

  /** The second quick question reaches the about branch. */
  lemma AboutQuestionResolves()
    ensures Resolve(ToLowerCase(PredefinedQuestions[1])) == About
  {
    var q := ToLowerCase(PredefinedQuestions[1]);
    assert q == "¿quién eres?";
    assert OccursAt(q, AboutKeywords[0], 1);
    MissingCharacter(ProjectKeywords[0], q, 'p');
    MissingCharacter(ProjectKeywords[1], q, 'p');
    MissingCharacter(ProjectKeywords[2], q, 't');
  }

  lemma ContactQuestionLowered()
    ensures ToLowerCase(PredefinedQuestions[2]) == "¿cómo puedo contactarte?"
  {
    var l := ToLowerCase(PredefinedQuestions[2]);
    forall i | 0 <= i < |l| ensures l[i] == "¿cómo puedo contactarte?"[i] { }
  }

  /** The lowered third quick question holds no projects keyword. */
  lemma ContactQuestionNotProjects()
    ensures !AnyKeyword("¿cómo puedo contactarte?", ProjectKeywords)
  {
    var q := "¿cómo puedo contactarte?";
    MissingCharacter(ProjectKeywords[0], q, 'y');
    MissingCharacter(ProjectKeywords[1], q, 's');
    MissingCharacter(ProjectKeywords[2], q, 'j');
  }

  /** The lowered third quick question holds no about keyword. */
  lemma ContactQuestionNotAbout()
    ensures !AnyKeyword("¿cómo puedo contactarte?", AboutKeywords)
  {
    var q := "¿cómo puedo contactarte?";
    MissingCharacter(AboutKeywords[0], q, 'é');
    MissingCharacter(AboutKeywords[1], q, 's');
    MissingCharacter(AboutKeywords[2], q, 's');
  }

  /** Which keyword lists the lowered third quick question hits. */
  lemma ContactQuestionKeywords()
    ensures var q := "¿cómo puedo contactarte?";
      !AnyKeyword(q, ProjectKeywords) && !AnyKeyword(q, AboutKeywords) && AnyKeyword(q, ContactKeywords)
  {
    var q := "¿cómo puedo contactarte?";
    assert OccursAt(q, ContactKeywords[1], 12);
    ContactQuestionNotProjects();
    ContactQuestionNotAbout();
  }

  /** The third quick question reaches the contact branch. */
  lemma ContactQuestionResolves()
    ensures Resolve(ToLowerCase(PredefinedQuestions[2])) == Contact
  {
    ContactQuestionLowered();
    ContactQuestionKeywords();
  }

  /** Empty or unrelated input reaches the fallback without a fetch. */
  lemma UnrelatedInputNotUnderstood(o: FetchOutcome)
    ensures HandleMessage("", o) == Turn(NotUnderstood, 0)
    ensures HandleMessage("xyz", o) == Turn(NotUnderstood, 0)
  {
    assert ToLowerCase("") == "";
    assert ToLowerCase("xyz") == "xyz";
    UnrelatedMatchesNothing("");
    UnrelatedMatchesNothing("xyz");
  }

  /** A text without the letters `o` and `e` holds no keyword: each keyword has one. */
  lemma UnrelatedMatchesNothing(q: string)
    requires 'o' !in q && 'e' !in q
    ensures !AnyKeyword(q, ProjectKeywords) && !AnyKeyword(q, AboutKeywords) && !AnyKeyword(q, ContactKeywords)
  {
    forall k | 0 <= k < |ProjectKeywords| ensures !IsSubstring(ProjectKeywords[k], q) {
      MissingCharacter(ProjectKeywords[k], q, 'o');
    }
    forall k | 0 <= k < |AboutKeywords| ensures !IsSubstring(AboutKeywords[k], q) {
      MissingCharacter(AboutKeywords[k], q, 'e');
    }
    forall k | 0 <= k < |ContactKeywords| ensures !IsSubstring(ContactKeywords[k], q) {
      MissingCharacter(ContactKeywords[k], q, 'o');
    }
  }

  /** The first quick question with a two-repository response: both are listed in
      order, the first with its language, both with the placeholder for a missing
      description. */
  lemma TwoRepositoryScenario()
    ensures var a := Repo(1, "a", "u1", None, Some("Go"));
      var b := Repo(2, "b", "u2", None, None);
      var t := HandleMessage(PredefinedQuestions[0], Json(Array([a, b])));
      && t.requests == 1
      && t.reply == Message(Bot, EntryLine(a) + "\n\n" + EntryLine(b), true)
      && ParseEntry(EntryLine(a)) == Some(EntryView("u1", "a", Some("Go"), "Sin descripción"))
      && ParseEntry(EntryLine(b)) == Some(EntryView("u2", "b", None, "Sin descripción"))
  {
    var a := Repo(1, "a", "u1", None, Some("Go"));
    var b := Repo(2, "b", "u2", None, None);
    ProjectsQuestionResolves();
    var lines := EntryLines([a, b][..2]);
    assert lines == [EntryLine(a), EntryLine(b)];
    assert Join(lines, EntrySeparator) == EntryLine(a) + EntrySeparator + EntryLine(b);
    assert Min(MaxListed, |[a, b]|) == 2;
    assert ProjectsReply(Array([a, b])) == Message(Bot, Join(lines, EntrySeparator), true);
    EntryRoundTrip(a);
    EntryRoundTrip(b);
  }
}
