# GitHub User Repo Widget — a Dafny model

The WordPress plugin `ja_github_repo_Widget` shows a list of a GitHub user's
repositories in a sidebar widget and can add a "follow" badge. Its core is the
render method `widget()`. That method is a cache-aside pipeline over WordPress
transients:

1. It reads the transient `'ja_github_repos_' . esc_attr($username)`.
2. If the value read is falsy, it asks `https://api.github.com/users/<user>/repos`.
3. It keeps the decoded body if the reply message is `'OK'`, and the string
   `'error'` otherwise.
4. It stores that value under the same key for 21600 seconds (six hours).
5. It prints the error text or a `<ul>` of links, wrapped in the theme's
   `before_widget`/`after_widget`. A title line and a badge frame are optional.

The settings hook `update()` strips tags from the title and user name and turns
the badge flag into an integer.

Files:

- `php.dfy` (module `Php`): the PHP semantics that settings go through. These
  are an undefined index reading as `null`, `empty()`, the string cast,
  `intval()` and `== 1`.
- `transients.dfy` (module `Transients`): the transient store. `Lookup` and
  `Store` give its contract as functions on a map of entries (value plus expiry
  time). The class `TransientStore` is the shared, mutable store that
  `get_transient`/`set_transient` act on.
- `widget.dfy` (module `GitHubRepoWidget`): the widget.
  - Data: `Repo`, `Value` (`Error | Repos(seq<Repo>) | Null`, so that PHP's
    falsiness of `[]` and `null` is explicit) and `Reply`.
  - `Resolve` is the pure cache-aside step. `Page` is everything echoed, one
    string per `echo`.
  - `ListMarkup` is the `foreach` loop that builds the list.
  - Class `RepoWidget`: its `Widget` method reads and writes the shared store and
    logs each URL it requests in a ghost field. Its contract ties it to
    `Resolve` and `Page`.
  - `Update` is the settings hook.
- `properties.dfy` (module `WidgetProperties`): lemmas over sequences of renders
  (`Run`) and over the printed output. It ends with a client method: two
  widgets for the same user share one transient.

Some behaviour one might expect of such a widget is absent from the code, and
the model follows the code:

- The code has no sort order, no page size and no owner-only filter in the
  request URL.
- The code does not invalidate the transient when settings are saved.
- The code has no transport-error branch. The reply is indexed as an array.
- The code has no separate parse-error kind. A body that is not JSON decodes to
  `null`. It is stored, and it renders as an empty list.
- The error text keeps the code's spelling, "occured".

A stored entry is live while `now < expires`, with `expires = stored + ttl`. At
exactly `stored + ttl` it counts as expired. This boundary is an assumption of
the model, not something the plugin's code decides (see "## Left out").

## Model

| member | source | states |
|---|---|---|
| `Transients.TransientStore.Get` | github-repos-widget.php:95 | reading a transient yields the stored value while the current time is before its expiry, and nothing once it has expired or was never stored |
| `Transients.TransientStore.Set` | github-repos-widget.php:117 | storing overwrites the entry for that key only, with expiry now + ttl |
| `Transients.LookupAfterStore` | github-repos-widget.php:95-117 | a value stored with a ttl reads back exactly until ttl seconds have passed; other keys read as before |
| `Php.IntValOfIntToString` | github-repos-widget.php:159 | `intval((string) $n) == $n` for every integer |
| `GitHubRepoWidget.ListMarkup` | github-repos-widget.php:129-133 | the loop prints `<ul>`, then one list item per repository in reply order, then `</ul>` |
| `GitHubRepoWidget.ItemsAppend` | github-repos-widget.php:130-132 | printing one more repository appends exactly its item; this is the loop's step |
| `GitHubRepoWidget.Update` | github-repos-widget.php:155-161 | the result has the submitted keys plus title, username and badge; every other submitted key is unchanged; title and username are `strip_tags` of the submitted values (a missing one read as ""), and badge is `intval` of the submitted badge |
| `GitHubRepoWidget.ParseArgs` | github-repos-widget.php:86 | the merged settings have the keys of both arrays; a key of the instance keeps the instance's value; any other key takes the default |
| `GitHubRepoWidget.Classify` | github-repos-widget.php:104-114 | the value kept is the decoded body when the message is "OK" and the error marker otherwise; it is truthy exactly when the message is not "OK" or the decoded body is truthy, so a failure is always cached as truthy |
| `GitHubRepoWidget.Resolve` | github-repos-widget.php:95-117 | a request is made exactly when the transient holds nothing live and truthy; on a hit the store is unchanged and the value is the one read; on a miss the value is the classified reply, which reads back until now + 21599 and is gone at now + 21600, with `now` the render's single clock reading; every other key is unchanged |
| `GitHubRepoWidget.Page` | github-repos-widget.php:89-142 | `before_widget` is echoed first and `after_widget` last; the number of echoes is the body's plus one each for the title line (non-empty title) and the badge (badge == 1) |
| `Php.Empty` | github-repos-widget.php:92 | `empty()` holds exactly for the values whose string form is "" or "0" |
| `Php.IntVal` | github-repos-widget.php:159 | null reads as 0 and an integer as itself; a string reads as a negative number only if it contains a minus sign, and as a non-zero number only if it contains a digit |
| `Php.LooseEqualsOne` | github-repos-widget.php:138 | a value that compares equal to 1 is not empty and reads as the integer 1 |
| `GitHubRepoWidget.RepoWidget.constructor` | github-repos-widget.php:49-56 | the defaults are an empty title, an empty user name and badge 0; the widget uses the given shared store; no request has been made |
| `GitHubRepoWidget.RepoWidget.Widget` | github-repos-widget.php:81-144 | the shared store changes as `Resolve` says, under the key made from the escaped user name; a request to that user's repos URL is logged exactly when `Resolve` fetches; the output is `Page` of the value used |
| `WidgetProperties.ResolveCases` | github-repos-widget.php:95-117 | a request is made if and only if no live truthy entry exists; on a hit the store is unchanged and the cached value is used; on a miss the value is the decoded body when the message is "OK" and `Error` otherwise, stored with expiry now + 21600 |
| `WidgetProperties.ResolveWritesOnlyKey` | github-repos-widget.php:87-117 | a render writes only the key it read; every other entry is unchanged |
| `WidgetProperties.ResolveReadsOnlyKey` | github-repos-widget.php:95-98 | the decision and the value depend only on the entry under the user's key |
| `WidgetProperties.LiveEntryServed` | github-repos-widget.php:95-98 | every render before a truthy entry expires gets that entry's value and makes no request |
| `WidgetProperties.FailureCachedForTtl` | github-repos-widget.php:109-124 | after a miss answered with a message other than "OK", every render in the next 21600 s shows only the error text and makes no request |
| `WidgetProperties.FetchedValueServedForTtl` | github-repos-widget.php:101-119 | after a miss that fetched a truthy value, every render in the next 21600 s gets that same value without a request |
| `WidgetProperties.FalsyRepliesRefetched` | github-repos-widget.php:98-117 | while replies classify to an empty list or null, every render makes a request, however recent the stored entry |
| `WidgetProperties.ExpiredEntryRefetched` | github-repos-widget.php:95-117 | a render 21600 s or more after the fetching render started makes a new request and uses the new reply (the clock is read once per render) |
| `WidgetProperties.ItemsAt` | github-repos-widget.php:130-132 | the i-th list item is the link for the i-th repository, and there are as many items as repositories |
| `WidgetProperties.BodyShape` | github-repos-widget.php:122-134 | the error text is printed if and only if the value is the error marker, and then alone; otherwise the output is `<ul>`, one `<li><a href=html_url>name</a></li>` per repository in order, then `</ul>` |
| `WidgetProperties.PageShape` | github-repos-widget.php:89-142 | `before_widget` comes first and `after_widget` last; the title line is present only for a non-empty title; the body is in the middle; the badge frame is present only when badge == 1 |
| `WidgetProperties.UpdateIgnoresOld` | github-repos-widget.php:155-161 | the saved settings do not depend on the previous settings |
| `WidgetProperties.UpdateIdempotent` | github-repos-widget.php:155-161 | saving the saved settings again changes nothing, when stripping tags twice is the same as stripping once |
| `WidgetProperties.SavedBadgeShown` | github-repos-widget.php:138-159 | after a save, the badge frame is printed exactly when the submitted badge value reads as the integer 1 |
| `WidgetProperties.CheckboxBadge` | github-repos-widget.php:159 | the value a ticked badge checkbox posts ("1") reads as 1, and the missing value of an unticked one reads as 0 |
| `Php.IntValOfOne` | github-repos-widget.php:159 | `intval("1") == 1` |
| `WidgetProperties.NeverSavedWidget` | github-repos-widget.php:52-56 | a widget that was never saved prints no title and no badge, and uses the key of the escaped empty user name |
| `WidgetProperties.OctocatScenario` | github-repos-widget.php:95-134 | two repositories answered "OK" on an empty store: one request, stored until now + 21600, and both listed in order |
| `WidgetProperties.ForbiddenScenario` | github-repos-widget.php:101-124 | a "Forbidden" reply is stored as the error marker and shows the error text with no list markup |

## Left out

- Widget registration (`add_action`, the `WP_Widget` call) and the admin `form()` HTML. These are CMS and UI glue.
- The HTTP transport. GitHub's reply is an input: its message and its decoded body. A transport-level `WP_Error` is not handled by the code, so there is no branch for it. The request is recorded as its URL in a ghost log. The request options are not modelled.
- `json_decode` results other than a list of repositories, `null` or the string `"error"` are not modelled: a JSON object, a number, `false`, or another string.
- A repository element without `name` or `html_url` is not modelled. Each `Repo` has both.
- `esc_attr` and `strip_tags` are unseen library code. They are function-valued parameters with no assumed behaviour. `UpdateIdempotent` assumes only that stripping is idempotent.
- `Php.IntVal`: does not model exponent notation in numeric strings ("1e3"), or saturation at `PHP_INT_MAX`. It reads optional white space, a sign and decimal digits.
- `Php.LooseEqualsOne`: for a badge held as a string, only the exact string "1" equals 1. PHP's numeric-string comparison (" 1", "01", "1.0") is not modelled. `update()` always stores the badge as an integer, so saved settings never reach this case.
- GitHubRepoWidget.Resolve: a render reads the clock once. The transient is read and written at the same `now`, so the model's entry expires at the render's start + 21600. In the code, `get_transient` and `set_transient` each read the time, with the blocking request in between, so the entry expires 21600 s after the reply arrives. `RepoWidget.Widget`, `ExpiredEntryRefetched` and the other TTL lemmas count the six hours from the render's start for the same reason.
- Transients.Lookup: the expiry boundary `now < expires` is an assumption. WordPress's options-backed transients drop an entry only once its timeout is strictly before the current time, so they still return it at exactly stored + ttl. The model, and `ExpiredEntryRefetched` with it, treats that one second as expired.
- Transient internals are reduced to their contract. Lazy deletion of expired rows and eviction by an external object cache are not modelled.
- PHP notices and warnings are not modelled. Examples are `foreach` over `null` and an undefined index. Only their effect on the output is modelled.
- The output is a sequence of echoed strings. Writing it to the page is not modelled.
- Concurrent renders racing on the same key are not modelled.
- The badge iframe's own behaviour is not modelled. Only whether it is printed is modelled.
