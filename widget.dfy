/** The GitHub repository widget: a cache-aside render of a user's repository
    list over the transient store, and the sanitising of saved settings. */
module GitHubRepoWidget {
  import opened Php
  import opened Transients

  /** How long a fetched reply is kept: six hours, in seconds. */
  const CacheTtl := 21600

  const TransientPrefix := "ja_github_repos_"

  /** The reply message GitHub sends with a successful response. */
  const ApiOk := "OK"

  /** The text shown when the cached value is the error marker (the source's spelling). */
  const ErrorMessage := "An error occured with the " + "GitHub API. Please try again later."

  const ListOpen := "<ul>"
  const ListClose := "</ul>"

  /** Settings of a widget that was never saved. */
  const DefaultSettings: Settings := map["title" := Text(""), "username" := Text(""), "badge" := Number(0)]

  /** One element of the decoded API reply. */
  datatype Repo = Repo(name: string, htmlUrl: string)

  /** What the widget keeps in `$repos` and in the transient: the string marker
      `'error'`, a decoded list of repositories, or the `null` that a body which
      is not JSON decodes to. */
  datatype Value = Error | Repos(repos: seq<Repo>) | Null

  /** The HTTP reply as the widget reads it: the response message and the
      decoded body. */
  datatype Reply = Reply(message: string, decoded: Value)

  /** The theme's wrapping strings handed to the widget. */
  datatype WidgetArgs = WidgetArgs(beforeWidget: string, afterWidget: string,
                                   beforeTitle: string, afterTitle: string)

  /** The transient store's view after one render: the value rendered, the
      entries afterwards, and whether the API was asked. */
  datatype Outcome = Outcome(value: Value, entries: map<string, Entry<Value>>, fetched: bool)

  function TransientKey(username: string): string
  {
    TransientPrefix + username
  }

  function ReposUrl(username: string): string
  {
    "https://api.github.com/users/" + username + "/repos"
  }

  /** The follow-button frame, around the user name. */
  const BadgeHead := "<iframe src=\"http://ghbtns.com/github-btn.html?user="
  const BadgeTail := "&type=follow&count=true\" allowtransparency=\"true\" frameborder=\"0\" scrolling=\"0\" width=\"165px\" height=\"20px\" style=\"display:block;margin:15px auto 0;\"></iframe>"

  function BadgeFrame(username: string): string
  {
    BadgeHead + username + BadgeTail
  }

  function ListItem(r: Repo): string
  {
    "<li><a href=\"" + r.htmlUrl + "\">" + r.name + "</a></li>"
  }

  /** PHP truthiness of the value: the error string and a non-empty list are
      truthy; an empty list and null are not. */
  predicate Truthy(v: Value)
  {
    match v
    case Error => true
    case Repos(rs) => |rs| > 0
    case Null => false
  }

  /** The repositories `foreach` walks: none for null. */
  function ReposOf(v: Value): seq<Repo>
  {
    if v.Repos? then v.repos else []
  }

  /** The value a fresh reply yields: the decoded body if GitHub answered OK,
      the error marker otherwise. */
  function Classify(reply: Reply): (v: Value)
    ensures reply.message == ApiOk ==> v == reply.decoded
    ensures reply.message != ApiOk ==> v == Error
    ensures Truthy(v) <==> reply.message != ApiOk || Truthy(reply.decoded)
  {
    if reply.message == ApiOk then reply.decoded else Error
  }

  /** `wp_parse_args($instance, $defaults)`: the instance's keys win. */
  function ParseArgs(instance: Settings, defaults: Settings): (r: Settings)
    ensures r.Keys == instance.Keys + defaults.Keys
    ensures forall k :: k in instance ==> r[k] == instance[k]
    ensures forall k :: k in defaults && k !in instance ==> r[k] == defaults[k]
  {
    defaults + instance
  }

  /** The escaped user name the widget uses for the key, the request and the badge. */
  function Username(inst: Settings, escAttr: string -> string): string
  {
    escAttr(ToStr(At(inst, "username")))
  }

  /** `get_transient` yields something truthy: `!$repos` is false and no request is made. */
  predicate Hit(entries: map<string, Entry<Value>>, key: string, now: int)
  {
    var cached := Lookup(entries, key, now);
    cached.Some? && Truthy(cached.value)
  }

  /** The cache-aside step: a live, truthy transient is used as it is; anything
      else makes one request, whose classified reply is stored for `CacheTtl`
      seconds under the same key. */
  function Resolve(entries: map<string, Entry<Value>>, key: string, now: int, reply: Reply): (o: Outcome)
    ensures o.fetched <==> !Hit(entries, key, now)
    ensures !o.fetched ==> o.entries == entries && Lookup(entries, key, now) == Some(o.value)
    ensures o.fetched ==> o.value == Classify(reply)
                          && Lookup(o.entries, key, now + CacheTtl - 1) == Some(o.value)
                          && Lookup(o.entries, key, now + CacheTtl) == None
    ensures forall k :: k != key ==> (k in o.entries <==> k in entries)
    ensures forall k :: k != key && k in entries ==> o.entries[k] == entries[k]
  {
    if Hit(entries, key, now) then
      Outcome(entries[key].value, entries, false)
    else
      var v := Classify(reply);
      Outcome(v, Store(entries, key, v, CacheTtl, now), true)
  }

  /** One list item per repository, in the order of the API's reply. */
  function Items(repos: seq<Repo>): seq<string>
  {
    if repos == [] then [] else [ListItem(repos[0])] + Items(repos[1..])
  }

  /** What the widget prints for the value: the error text, or the list. */
  function Body(v: Value): seq<string>
  {
    if v == Error then [ErrorMessage] else [ListOpen] + Items(ReposOf(v)) + [ListClose]
  }

  function TitlePart(args: WidgetArgs, inst: Settings): seq<string>
  {
    var title := At(inst, "title");
    if Empty(title) then [] else [args.beforeTitle + ToStr(title) + args.afterTitle]
  }

  function BadgePart(inst: Settings, username: string): seq<string>
  {
    if LooseEqualsOne(At(inst, "badge")) then [BadgeFrame(username)] else []
  }

  /** Everything the widget echoes, one string per echo, in order. */
  function Page(args: WidgetArgs, inst: Settings, username: string, v: Value): (p: seq<string>)
    ensures |p| == |Body(v)| + 2 + (if Empty(At(inst, "title")) then 0 else 1)
                                 + (if LooseEqualsOne(At(inst, "badge")) then 1 else 0)
    ensures p[0] == args.beforeWidget && p[|p| - 1] == args.afterWidget
  {
    [args.beforeWidget] + TitlePart(args, inst) + Body(v) + BadgePart(inst, username) + [args.afterWidget]
  }

  lemma {:induction false} ItemsAppend(repos: seq<Repo>, r: Repo)
    ensures Items(repos + [r]) == Items(repos) + [ListItem(r)]
  {
    if repos != [] {
      assert (repos + [r])[1..] == repos[1..] + [r];
      ItemsAppend(repos[1..], r);
    }
  }

  /** The `<ul>` block: the opening tag, one item per repository in order, the closing tag. */
  method ListMarkup(repos: seq<Repo>) returns (out: seq<string>)
    ensures out == [ListOpen] + Items(repos) + [ListClose]
  {
    out := [ListOpen];
    var i := 0;
    while i < |repos|
      invariant 0 <= i <= |repos|
      invariant out == [ListOpen] + Items(repos[..i])
    {
      ItemsAppend(repos[..i], repos[i]);
      assert repos[..i + 1] == repos[..i] + [repos[i]];
      out := out + [ListItem(repos[i])];
      i := i + 1;
    }
    assert repos[..i] == repos;
    out := out + [ListClose];
  }

  /** `update()`: the title and user name lose their tags, the badge becomes an
      integer, every other submitted key is kept and the previous settings are
      not consulted. */
  function Update(newInstance: Settings, oldInstance: Settings, stripTags: string -> string): (r: Settings)
    ensures r.Keys == newInstance.Keys + {"title", "username", "badge"}
    ensures forall k :: k in newInstance && k != "title" && k != "username" && k != "badge"
                        ==> r[k] == newInstance[k]
    ensures r["title"] == Text(stripTags(ToStr(At(newInstance, "title"))))
    ensures r["username"] == Text(stripTags(ToStr(At(newInstance, "username"))))
    ensures r["badge"] == Number(IntVal(At(newInstance, "badge")))
  {
    newInstance["title" := Text(stripTags(ToStr(At(newInstance, "title"))))]
               ["username" := Text(stripTags(ToStr(At(newInstance, "username"))))]
               ["badge" := Number(IntVal(At(newInstance, "badge")))]
  }

  /** One widget instance. `transients` is the site-wide store it shares with
      every other widget; `requested` records the URLs it has asked GitHub for. */
  class RepoWidget {
    const defaults: Settings
    const transients: TransientStore<Value>
    ghost var requested: seq<string>

    constructor (transients: TransientStore<Value>)
      ensures defaults == DefaultSettings && this.transients == transients && requested == []
    {
      defaults := DefaultSettings;
      this.transients := transients;
      requested := [];
    }

    /** `widget()`: renders the list for the configured user, asking GitHub only
        when the transient holds nothing truthy. `reply` is what GitHub would
        answer; it is read only when a request is made. */
    method Widget(args: WidgetArgs, instance: Settings, now: int, reply: Reply, escAttr: string -> string)
      returns (out: seq<string>)
      modifies this`requested, transients`entries
      ensures transients.entries
              == Resolve(old(transients.entries), TransientKey(Username(ParseArgs(instance, defaults), escAttr)), now, reply).entries
      ensures requested == old(requested)
              + (if Resolve(old(transients.entries), TransientKey(Username(ParseArgs(instance, defaults), escAttr)), now, reply).fetched
                 then [ReposUrl(Username(ParseArgs(instance, defaults), escAttr))] else [])
      ensures out == Page(args, ParseArgs(instance, defaults), Username(ParseArgs(instance, defaults), escAttr),
                          Resolve(old(transients.entries), TransientKey(Username(ParseArgs(instance, defaults), escAttr)), now, reply).value)
    {
      var inst := ParseArgs(instance, defaults);
      var username := Username(inst, escAttr);
      ghost var o := Resolve(transients.entries, TransientKey(username), now, reply);

      out := [args.beforeWidget];
      var title := At(inst, "title");
      if !Empty(title) {
        out := out + [args.beforeTitle + ToStr(title) + args.afterTitle];
      }
      assert out == [args.beforeWidget] + TitlePart(args, inst);

      var key := TransientKey(username);
      var cached := transients.Get(key, now);
      var repos: Value;
      if cached.None? || !Truthy(cached.value) {
        requested := requested + [ReposUrl(username)];
        if reply.message == ApiOk {
          repos := reply.decoded;
        } else {
          repos := Error;
        }
        transients.Set(key, repos, CacheTtl, now);
      } else {
        repos := cached.value;
      }
      assert repos == o.value && transients.entries == o.entries;

      var body: seq<string>;
      if repos == Error {
        body := [ErrorMessage];
      } else {
        body := ListMarkup(ReposOf(repos));
      }
      assert body == Body(repos);
      out := out + body;

      var badge: seq<string> := [];
      if LooseEqualsOne(At(inst, "badge")) {
        badge := [BadgeFrame(username)];
      }
      assert badge == BadgePart(inst, username);
      out := out + badge + [args.afterWidget];
      assert out == Page(args, inst, username, o.value);
    }
  }
}
