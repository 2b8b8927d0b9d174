/** What the widget promises across renders and saves: when GitHub is asked,
    what is cached and for how long, and what is printed. */
module WidgetProperties {
  import opened Php
  import opened Transients
  import opened GitHubRepoWidget

  /** One render: the time it happens and what GitHub would answer if asked. */
  datatype Visit = Visit(now: int, reply: Reply)

  /** Renders for one user, one after another, each on the store the previous one left. */
  function Run(entries: map<string, Entry<Value>>, key: string, visits: seq<Visit>): (os: seq<Outcome>)
    ensures |os| == |visits|
    decreases |visits|
  {
    if visits == [] then []
    else
      var o := Resolve(entries, key, visits[0].now, visits[0].reply);
      [o] + Run(o.entries, key, visits[1..])
  }

  /** One render either serves a live truthy transient untouched, or makes one
      request and stores its classified reply for six hours under the key it read. */
  lemma ResolveCases(entries: map<string, Entry<Value>>, key: string, now: int, reply: Reply)
    ensures var o := Resolve(entries, key, now, reply);
      && (o.fetched <==> !(key in entries && now < entries[key].expires && Truthy(entries[key].value)))
      && (!o.fetched ==> o.entries == entries && o.value == entries[key].value)
      && (o.fetched ==> o.value == (if reply.message == "OK" then reply.decoded else Error)
                        && key in o.entries && o.entries[key] == Entry(o.value, now + 21600))
  {
  }

  /** The key that is written is the key that was read: no other entry changes. */
  lemma ResolveWritesOnlyKey(entries: map<string, Entry<Value>>, key: string, now: int, reply: Reply)
    ensures var o := Resolve(entries, key, now, reply);
      && o.entries.Keys <= entries.Keys + {key}
      && forall k :: k in entries && k != key ==> k in o.entries && o.entries[k] == entries[k]
  {
  }

  /** The decision depends only on the entry under the key: two stores that agree
      there render the same value and make the same request. */
  lemma ResolveReadsOnlyKey(e1: map<string, Entry<Value>>, e2: map<string, Entry<Value>>,
                            key: string, now: int, reply: Reply)
    requires key in e1 <==> key in e2
    requires key in e1 ==> e1[key] == e2[key]
    ensures Resolve(e1, key, now, reply).value == Resolve(e2, key, now, reply).value
    ensures Resolve(e1, key, now, reply).fetched == Resolve(e2, key, now, reply).fetched
  {
  }

  /** A live, truthy entry is served by every render before it expires, and none
      of them asks GitHub. */
  lemma {:induction false} LiveEntryServed(entries: map<string, Entry<Value>>, key: string, visits: seq<Visit>)
    requires key in entries && Truthy(entries[key].value)
    requires forall i :: 0 <= i < |visits| ==> visits[i].now < entries[key].expires
    ensures forall i :: 0 <= i < |visits| ==>
              !Run(entries, key, visits)[i].fetched && Run(entries, key, visits)[i].value == entries[key].value
    decreases |visits|
  {
    if visits != [] {
      var o := Resolve(entries, key, visits[0].now, visits[0].reply);
      assert o.entries == entries;
      LiveEntryServed(entries, key, visits[1..]);
      forall i | 0 <= i < |visits|
        ensures !Run(entries, key, visits)[i].fetched && Run(entries, key, visits)[i].value == entries[key].value
      {
        if i > 0 {
          assert visits[1..][i - 1] == visits[i];
        }
      }
    }
  }

  /** Failures are cached like successes: after a render whose request was not
      answered OK, every render in the next six hours prints the error text and
      asks nothing. */
  lemma FailureCachedForTtl(entries: map<string, Entry<Value>>, key: string, first: Visit, later: seq<Visit>)
    requires !Hit(entries, key, first.now) && first.reply.message != "OK"
    requires forall i :: 0 <= i < |later| ==> later[i].now < first.now + 21600
    ensures Run(entries, key, [first] + later)[0].fetched
    ensures forall i :: 1 <= i <= |later| ==>
              !Run(entries, key, [first] + later)[i].fetched
              && Run(entries, key, [first] + later)[i].value == Error
              && Body(Run(entries, key, [first] + later)[i].value) == [ErrorMessage]
  {
    var o := Resolve(entries, key, first.now, first.reply);
    assert ([first] + later)[1..] == later;
    LiveEntryServed(o.entries, key, later);
  }

  /** Write-through: after a render that fetched a truthy value, renders within
      six hours get that same value back without a request. */
  lemma FetchedValueServedForTtl(entries: map<string, Entry<Value>>, key: string, first: Visit, later: seq<Visit>)
    requires !Hit(entries, key, first.now) && Truthy(Classify(first.reply))
    requires forall i :: 0 <= i < |later| ==> later[i].now < first.now + 21600
    ensures forall i :: 1 <= i <= |later| ==>
              !Run(entries, key, [first] + later)[i].fetched
              && Run(entries, key, [first] + later)[i].value == Classify(first.reply)
  {
    var o := Resolve(entries, key, first.now, first.reply);
    assert ([first] + later)[1..] == later;
    LiveEntryServed(o.entries, key, later);
  }

  /** An empty list or a null decode is stored but is falsy: as long as GitHub
      keeps answering with one, every render asks again, however recent the entry. */
  lemma {:induction false} FalsyRepliesRefetched(entries: map<string, Entry<Value>>, key: string, visits: seq<Visit>)
    requires key in entries ==> !Truthy(entries[key].value)
    requires forall i :: 0 <= i < |visits| ==> !Truthy(Classify(visits[i].reply))
    ensures forall i :: 0 <= i < |visits| ==> Run(entries, key, visits)[i].fetched
    decreases |visits|
  {
    if visits != [] {
      var o := Resolve(entries, key, visits[0].now, visits[0].reply);
      assert !Truthy(o.entries[key].value);
      assert forall i :: 0 <= i < |visits[1..]| ==> visits[1..][i] == visits[i + 1];
      FalsyRepliesRefetched(o.entries, key, visits[1..]);
      forall i | 0 <= i < |visits|
        ensures Run(entries, key, visits)[i].fetched
      {
        if i > 0 {
          assert Run(entries, key, visits)[i] == Run(o.entries, key, visits[1..])[i - 1];
        }
      }
    }
  }

  /** Once six hours have passed the entry is gone and the next render asks again. */
  lemma ExpiredEntryRefetched(entries: map<string, Entry<Value>>, key: string, first: Visit, second: Visit)
    requires !Hit(entries, key, first.now)
    requires second.now >= first.now + 21600
    ensures Run(entries, key, [first, second])[1].fetched
    ensures Run(entries, key, [first, second])[1].value == Classify(second.reply)
  {
    assert [first, second][1..] == [second];
  }

  lemma {:induction false} ItemsAt(repos: seq<Repo>)
    ensures |Items(repos)| == |repos|
    ensures forall i :: 0 <= i < |repos| ==> Items(repos)[i] == ListItem(repos[i])
  {
    if repos != [] {
      ItemsAt(repos[1..]);
      forall i | 0 <= i < |repos|
        ensures Items(repos)[i] == ListItem(repos[i])
      {
        if i > 0 {
          assert repos[1..][i - 1] == repos[i];
        }
      }
    }
  }

  /** The printed body: the error text alone for the error marker, otherwise
      `<ul>`, one link per repository in the order GitHub sent them, `</ul>`;
      the error text is printed exactly when the value is the error marker. */
  lemma BodyShape(v: Value)
    ensures v == Error ==> Body(v) == [ErrorMessage]
    ensures v != Error ==>
              && |Body(v)| == |ReposOf(v)| + 2
              && Body(v)[0] == "<ul>" && Body(v)[|Body(v)| - 1] == "</ul>"
              && forall i :: 0 <= i < |ReposOf(v)| ==>
                   Body(v)[i + 1] == "<li><a href=\"" + ReposOf(v)[i].htmlUrl + "\">" + ReposOf(v)[i].name + "</a></li>"
    ensures ErrorMessage in Body(v) <==> v == Error
  {
    if v != Error {
      assert ErrorMessage[0] == 'A';
      var rs := ReposOf(v);
      ItemsAt(rs);
      var b := Body(v);
      forall i | 0 <= i < |b|
        ensures b[i] != ErrorMessage
      {
        if i == 0 || i == |b| - 1 {
          assert |b[i]| < |ErrorMessage|;
        } else {
          assert b[i] == ListItem(rs[i - 1]);
          assert ListItem(rs[i - 1])[0] == '<';
        }
      }
    }
  }

  /** The widget's frame: `before_widget` first and `after_widget` last; the
      title line only when the title is not empty; the body; the follow badge
      only when `badge == 1`. */
  lemma PageShape(args: WidgetArgs, inst: Settings, username: string, v: Value)
    ensures var p := Page(args, inst, username, v);
      var title := At(inst, "title");
      var k := if Empty(title) then 1 else 2;
      && |p| == |Body(v)| + k + (if LooseEqualsOne(At(inst, "badge")) then 2 else 1)
      && p[0] == args.beforeWidget && p[|p| - 1] == args.afterWidget
      && (!Empty(title) ==> p[1] == args.beforeTitle + ToStr(title) + args.afterTitle)
      && p[k..k + |Body(v)|] == Body(v)
      && (LooseEqualsOne(At(inst, "badge")) ==> p[|p| - 2] == BadgeFrame(username))
  {
    var t, b, g := TitlePart(args, inst), Body(v), BadgePart(inst, username);
    var head := [args.beforeWidget] + t;
    var tail := g + [args.afterWidget];
    var p := head + b + tail;
    assert p == Page(args, inst, username, v);
    assert |head| == (if Empty(At(inst, "title")) then 1 else 2);
    SliceOfConcat(head, b, tail);
  }

  lemma SliceOfConcat(a: seq<string>, b: seq<string>, c: seq<string>)
    ensures (a + b + c)[|a|..|a| + |b|] == b
  {
    assert (a + b + c)[|a|..|a| + |b|] == (a + b)[|a|..];
  }

  /** The settings saved for a user are independent of what was saved before. */
  lemma UpdateIgnoresOld(newInstance: Settings, old1: Settings, old2: Settings, stripTags: string -> string)
    ensures Update(newInstance, old1, stripTags) == Update(newInstance, old2, stripTags)
  {
  }

  /** Saving the saved settings again changes nothing, when stripping tags twice
      is the same as stripping them once. */
  lemma UpdateIdempotent(newInstance: Settings, oldInstance: Settings, stripTags: string -> string)
    requires forall s :: stripTags(stripTags(s)) == stripTags(s)
    ensures Update(Update(newInstance, oldInstance, stripTags), oldInstance, stripTags)
            == Update(newInstance, oldInstance, stripTags)
  {
    var u := Update(newInstance, oldInstance, stripTags);
    var uu := Update(u, oldInstance, stripTags);
    assert uu.Keys == u.Keys;
    forall k | k in u
      ensures uu[k] == u[k]
    {
      if k == "title" || k == "username" {
        assert stripTags(stripTags(ToStr(At(newInstance, k)))) == stripTags(ToStr(At(newInstance, k)));
      }
    }
  }

  /** After a save, the widget shows the follow badge exactly when the submitted
      badge value reads as the integer 1: a ticked checkbox (which posts "1")
      shows it, an unticked one (which posts nothing) does not. */
  lemma SavedBadgeShown(newInstance: Settings, oldInstance: Settings, stripTags: string -> string, username: string)
    ensures var inst := ParseArgs(Update(newInstance, oldInstance, stripTags), DefaultSettings);
      BadgePart(inst, username) == (if IntVal(At(newInstance, "badge")) == 1 then [BadgeFrame(username)] else [])
  {
    SavedBadgeValue(newInstance, oldInstance, stripTags);
  }

  /** The badge checkbox posts "1" when ticked and nothing when not: these read
      as 1 and 0. */
  lemma CheckboxBadge(newInstance: Settings)
    ensures At(newInstance, "badge") == Text("1") ==> IntVal(At(newInstance, "badge")) == 1
    ensures "badge" !in newInstance ==> IntVal(At(newInstance, "badge")) == 0
  {
    IntValOfOne();
  }

  lemma SavedBadgeValue(newInstance: Settings, oldInstance: Settings, stripTags: string -> string)
    ensures At(ParseArgs(Update(newInstance, oldInstance, stripTags), DefaultSettings), "badge")
            == Number(IntVal(At(newInstance, "badge")))
  {
  }

  /** A widget that was never saved has no title line and no badge, and reads
      the transient of the escaped empty user name. */
  lemma NeverSavedWidget(args: WidgetArgs, escAttr: string -> string, v: Value)
    ensures var inst := ParseArgs(map[], DefaultSettings);
      && Username(inst, escAttr) == escAttr("")
      && Page(args, inst, escAttr(""), v) == [args.beforeWidget] + Body(v) + [args.afterWidget]
  {
  }

  /** Two repositories answered OK on an empty store: one request, the reply is
      stored for six hours, and the list shows both in order. */
  lemma OctocatScenario()
    ensures var r1 := Repo("Repo1", "https://github.com/octocat/Repo1");
      var r2 := Repo("Repo2", "https://github.com/octocat/Repo2");
      var o := Resolve(map[], "ja_github_repos_octocat", 1000, Reply("OK", Repos([r1, r2])));
      && o.fetched && o.value == Repos([r1, r2])
      && o.entries == map["ja_github_repos_octocat" := Entry(Repos([r1, r2]), 22600)]
      && Body(o.value) == ["<ul>", ListItem(r1), ListItem(r2), "</ul>"]
  {
    var r1 := Repo("Repo1", "https://github.com/octocat/Repo1");
    var r2 := Repo("Repo2", "https://github.com/octocat/Repo2");
    assert [r1, r2][1..] == [r2];
    assert [r2][1..] == [];
    assert Items([r2]) == [ListItem(r2)] + Items([]);
    assert Items([r1, r2]) == [ListItem(r1)] + Items([r2]);
  }

  /** A "Forbidden" reply is cached as the error marker and rendered as the error
      text, with no list markup. */
  lemma ForbiddenScenario()
    ensures var o := Resolve(map[], "ja_github_repos_octocat", 1000, Reply("Forbidden", Value.Null));
      && o.fetched && o.value == Error
      && o.entries == map["ja_github_repos_octocat" := Entry(Error, 22600)]
      && Body(o.value) == [ErrorMessage]
      && "<ul>" !in Body(o.value)
  {
  }

  /** Two widgets configured for the same user share one transient: after the
      first one's request fails, the second prints the same error text within six
      hours without asking GitHub, whatever GitHub would now answer. */
  method SharedTransientClient(args: WidgetArgs, escAttr: string -> string, repos: seq<Repo>)
  {
    var store := new TransientStore<Value>();
    var first := new RepoWidget(store);
    var second := new RepoWidget(store);
    var settings := map["username" := Text("octocat"), "badge" := Number(1)];
    var out1 := first.Widget(args, settings, 1000, Reply("Forbidden", Value.Null), escAttr);
    var out2 := second.Widget(args, settings, 1000 + 21599, Reply("OK", Repos(repos)), escAttr);
    assert |first.requested| == 1 && second.requested == [];
    assert out2 == out1;
  }
}
