# Verified models of wazo-dird

wazo-dird answers directory lookups: it prints LDAP filters, calls sources on a thread pool, caches
source plugins and files, and stores contacts. This project models the parts of it that hold hard
properties and proves those properties for all inputs, all runs or all interleavings.

| modules | what they model |
|---|---|
| `Rfc4515`, `LdapConfig`, `LdapUniqueId`, `LdapMatch` | the string syntax of section 3 of RFC 4515 with a parser, the filters an LDAP source prints, what they select (section 4.5.1.7 of RFC 4511), batch matching |
| `SourceResult`, `LastWins` | format columns, the attributes a source asks for, "last entry wins" loops |
| `LdapClient`, `LdapThreads` | the reconnecting LDAP client, as a class and as a protocol over the log of its exchanges; its searches and its closing as interleaved threads |
| `SourceCache`, `DeletedSources` | the plugin cache, as a class and as interleaved threads around its lock and the database; what becomes of a deleted source |
| `ReverseService` | reverse lookup: futures on a pool with adversarial workers and clock |
| `FirstOccurrences`, `ContactRows` | contacts regrouped from field rows, one-pass matching of a batch of extensions |
| `ContactStore`, `PersonalContacts`, `PhonebookContacts`, `PhonebookListing`, `ContactRuns` | the contact tables, their transactions and savepoints, and runs of all operations |
| `MatchAll`, `WazoBackend` | `match_all` of the google, office365, conference and wazo backends against the one-by-one definition |
| `CsvCache` | the CSV file cache, as a class and as interleaved loads and writes |

`dafny verify dfyconfig.toml` checks the whole project.

The main results, and what they say:

* A printed LDAP filter denotes exactly the intended tree for every term, and an entry satisfies it exactly
  when the term occurs in (or equals) a configured column and the filled custom filter holds.
* Substituting `%Q` in a custom filter keeps its structure, except that an empty term turns a bare prefix or
  suffix test into a presence test; the exact condition is proved, with an instance.
* Batch matching by one LDAP search keeps, for an extension, an entry that shows it and that the filter of some
  asked extension selects. That agrees with the extensions' own filters, in all directories and batches, if and
  only if the custom filter judges alike any two extensions that one entry shows: always without `%Q` in it, and
  always with a single match column.
* The LDAP client unbinds no connection twice and queries none that is gone, as long as its calls do not overlap.
  Closing takes no lock: n searching and m closing threads are safe in every schedule if and only if nobody
  closes, or one thread closes and nobody searches.
* No interleaving of gets and edits serves a plugin older than an edit that has returned. Nothing invalidates on
  deletion. What the cache has for a deleted source, a plugin or nothing, is what every later get answers, if and
  only if no edit still to invalidate and no load begun before the deletion can change it.
* A reverse lookup that does not time out answers the union of what the sources answer, whatever the order of
  completion; no exit leaves a queued task.
* In every run of the contact operations each contact's rows spell its hashed content plus its uuid, no owner
  has a content twice, and owners do not touch one another.
* A body whose only key is `id` passes the phonebook validation, which tests for emptiness before it drops `id`.
  Its contact has no row: `count` sees it, `list` and `get` do not. In every run, `count`
  stays the length of `list` if and only if no such body is saved.
* A `match_all` override answers the terms of the one-by-one definition if and only if no comparison raises; the
  answers for a term are the same if and only if its first and its last match are. Contacts of the backends for
  which either fails are given.
* The CSV cache is fresh in every run whose loads do not overlap. `_load_file` assigns its rows and its time
  separately and takes no lock, so two threads are enough to leave it stale until the file changes again.

In two places the source says something else than its code does, and the code is what is modelled. The comment
in `wazo_dird/plugins/ldap_backend/plugin.py:341-343` says that `set_up` raises when the connection cannot be
initialized; a failed bind is only logged, and the connection closed. And the message in
`wazo_dird/plugins/phonebook_service/plugin.py:208` says that contacts cannot be empty, but see above.

What the environment is assumed to do: PostgreSQL runs the sessions one after the other and enforces its unique
constraints, generated uuids are new, a file replacement has a modification time the file never had, an LDAP
directory has entries with one value per attribute compared octet by octet, and a source's name is never the
uuid of a source. The server's answers, the faults of the database, the worker threads and the clock are
arbitrary.

## Model

| member | source | states |
|---|---|---|
| Rfc4515.ParseIff | wazo_dird/plugins/ldap_backend/plugin.py:268-296 | a text parses to a tree exactly when the tree is well formed and prints as that text: the filter syntax is read in one way only |
| LdapConfig.EscapeRoundTrip | wazo_dird/plugins/ldap_backend/plugin.py:220-240 | every term escapes to one valid assertion value that decodes to the term, special characters and NUL included |
| LdapConfig.OrDenotes | wazo_dird/plugins/ldap_backend/plugin.py:292-296 | joining printed filters gives their Or, bare for one filter and absolute-false for none |
| LdapConfig.AndDenotes | wazo_dird/plugins/ldap_backend/plugin.py:268-273 | the custom and the generated filter are joined into their And |
| LdapConfig.ReplaceInPrint | wazo_dird/plugins/ldap_backend/plugin.py:275-278 | replacing `%Q` in the text of a filter rewrites the assertion values of its tree and nothing else |
| LdapConfig.ReplaceFirstQ | wazo_dird/plugins/ldap_backend/plugin.py:275-278 | the first `%Q` of a text is replaced, what stands before it stays, and what stands after it is replaced in turn |
| LdapConfig.SubstitutionDenotesSplice | wazo_dird/plugins/ldap_backend/plugin.py:275-278 | the filled custom filter denotes the template's own tree with the raw term spliced into its values, also when the term holds `%Q` or parentheses |
| LdapConfig.SubstitutionKeepsStructure | wazo_dird/plugins/ldap_backend/plugin.py:275-278 | the structure of the template is kept if and only if the term is not empty or no prefix or suffix test consists of `%Q` alone |
| LdapConfig.EmptyTermDropsPrefixTest | wazo_dird/plugins/ldap_backend/plugin.py:275-278 | `(cn=%Q*)` filled with the empty term tests for presence instead of a prefix |
| LdapConfig.SearchFilterDenotes | wazo_dird/plugins/ldap_backend/plugin.py:220-237 | the search filter parses as a whole to the Or of one substring test of the raw term per searched column, And-ed with the filled custom filter if there is one; an accepted configuration always has a search filter |
| LdapConfig.FirstMatchFilterDenotes | wazo_dird/plugins/ldap_backend/plugin.py:239-258 | the same for the first-match filter and equality tests |
| LdapConfig.MatchAllFilterDenotes | wazo_dird/plugins/ldap_backend/plugin.py:260-266 | the batch filter denotes the Or of the terms' first-match filters |
| LdapUniqueId.ParseCanonical | wazo_dird/plugins/ldap_backend/plugin.py:448-449 | the canonical text of 16 octets reads back as those octets, also as a URN and in braces |
| LdapUniqueId.CanonicalShape | wazo_dird/plugins/ldap_backend/plugin.py:448-449 | the canonical text: 36 characters, dashes at four places, and two lower-case digits for each octet, in order |
| LdapUniqueId.ConvertedUidDecodes | wazo_dird/plugins/ldap_backend/plugin.py:314-320 | any spelling of a UUID converts to a valid assertion value of its 16 octets |
| LdapUniqueId.BinaryUidRoundTrip | wazo_dird/plugins/ldap_backend/plugin.py:314-320 | an identifier shown in a result and fed back becomes an assertion value of the same 16 octets, and different identifiers give different values |
| LdapUniqueId.BinaryListFilterDenotes | wazo_dird/plugins/ldap_backend/plugin.py:298-312 | the list filter of binary identifiers tests the unique column for exactly their octets |
| LdapUniqueId.ListFilterRaisesIff | wazo_dird/plugins/ldap_backend/plugin.py:309-320 | building the list filter raises exactly when some identifier does not read as a UUID |
| LdapUniqueId.TextUidDenotesItself | wazo_dird/plugins/ldap_backend/plugin.py:304-312 | the filter of one textual identifier compares with that identifier if and only if it holds no character that needs escaping |
| LdapUniqueId.TextListDenotesItself | wazo_dird/plugins/ldap_backend/plugin.py:298-312 | the list filter of textual identifiers compares with exactly those identifiers if and only if none of them holds such a character |
| LdapUniqueId.StarUidTestsPresence | wazo_dird/plugins/ldap_backend/plugin.py:304-312 | the textual identifier `*` becomes a presence test of the unique column |
| LdapMatch.SearchFilterSelects | wazo_dird/plugins/ldap_backend/plugin.py:63-68 | an entry satisfies the printed search filter exactly when the raw term occurs in a searched column, if there are any, and the custom filter, if one is given and not empty, holds with the escaped term for `%Q` |
| LdapMatch.FirstMatchFilterSelects | wazo_dird/plugins/ldap_backend/plugin.py:239-258 | the same for the first-match filter, where the term equals a match column |
| LdapMatch.AllSatisfied | wazo_dird/plugins/ldap_backend/plugin.py:268-273 | section 4.5.1.7 of RFC 4511: an entry satisfies an And, the custom and the generated filter joined, exactly when it satisfies every part |
| LdapMatch.SubstringIff | wazo_dird/plugins/ldap_backend/plugin.py:220-237 | section 4.5.1.7.2 of RFC 4511: a value matches a substring test exactly when it is its text with some texts in place of the asterisks |
| LdapMatch.BatchFilterSelects | wazo_dird/plugins/ldap_backend/plugin.py:260-266 | an entry satisfies the batch filter exactly when some asked extension's own filter selects it |
| LdapMatch.MatchAll | wazo_dird/plugins/ldap_backend/plugin.py:77-93 | the keys are the asked extensions that some entry shows in a match column; each is answered by the last entry that shows it in the last such column |
| LdapMatch.WinnerIs | wazo_dird/plugins/ldap_backend/plugin.py:85-90 | the entry kept for a term, by positions: the last that shows it in the last column in which any does |
| LdapMatch.ColumnShown | wazo_dird/plugins/ldap_backend/plugin.py:444-453 | a fetched match column that no format column overwrites shows the entry's own value |
| LdapMatch.UniqueColumnShown | wazo_dird/plugins/ldap_backend/plugin.py:444-453 | a binary unique column that no format column overwrites shows the canonical text of its octets |
| LdapMatch.FormatColumnsShown | wazo_dird/plugins/ldap_backend/plugin.py:444-453 | every format column holds the text of its template over the decoded attributes, and every other name its decoded attribute |
| LdapMatch.FormatAllInOrder | wazo_dird/plugins/ldap_backend/plugin.py:113-123 | the entries stay in the order of the answer, and only search references are left out |
| LdapMatch.BatchKeeps | wazo_dird/plugins/ldap_backend/plugin.py:77-93 | one search for a batch keeps a result for an extension exactly when an entry of the directory shows it and some asked extension's filter selects the entry; the result is such an entry |
| LdapMatch.AgreementIff | wazo_dird/plugins/ldap_backend/plugin.py:77-93 | the answers to batches agree with the extensions' own filters for all directories, batches and answers of the server, if and only if the custom filter judges alike any two extensions that one entry shows |
| LdapMatch.NoTermSameVerdict | wazo_dird/plugins/ldap_backend/plugin.py:275-278 | a custom filter without `%Q`, or none, meets that condition |
| LdapMatch.OneColumnSameVerdict | wazo_dird/plugins/ldap_backend/plugin.py:239-258 | so does any custom filter when there is one match column |
| LdapMatch.BatchMatchesFilters | wazo_dird/plugins/ldap_backend/plugin.py:77-93 | under that condition the result of `match_all` has exactly the asked extensions whose printed first-match filter some entry satisfies, each with such an entry, formatted, that shows the extension |
| LdapMatch.TermInCustomFilterDisagrees | wazo_dird/plugins/ldap_backend/plugin.py:260-278 | a configuration with two match columns and `%Q` on a third one fails the condition: a batch of two reaches an entry for one of them that its own filter does not select |
| LdapMatch.BinaryListSelects | wazo_dird/plugins/ldap_backend/plugin.py:298-320 | the list filter of binary identifiers selects exactly the entries with one of those octets in the unique column |
| LdapMatch.TextListSelects | wazo_dird/plugins/ldap_backend/plugin.py:298-312 | that of textual identifiers without special characters selects exactly the entries with one of those texts |
| LdapClient.LdapClient.SetUpClient | wazo_dird/plugins/ldap_backend/plugin.py:340-370 | opens and binds a connection unless there is one, and closes it again when the bind fails |
| LdapClient.LdapClient.Close | wazo_dird/plugins/ldap_backend/plugin.py:336-338 | unbinds the connection if there is one, and only then |
| LdapClient.LdapClient.SearchDirectory | wazo_dird/plugins/ldap_backend/plugin.py:376-421 | the results are the entries of the last query that the search logged: none when it failed, none when no query was made; state and log are those of one retry on a connection that went stale |
| LdapClient.SearchAnswers | wazo_dird/plugins/ldap_backend/plugin.py:376-421 | every search, whatever the state and the server: what it appends to the log ends in a query whose entries it returns, or it returns nothing |
| LdapClient.HealthyConnectionAnswers | wazo_dird/plugins/ldap_backend/plugin.py:376-402 | a connected client whose query is answered returns those entries after that one query, and keeps the connection |
| LdapClient.SearchTraffic | wazo_dird/plugins/ldap_backend/plugin.py:376-392 | a search makes at most one bind and two queries, with the exact conditions for each; a non-empty result is the answer to the last query on a connection still held |
| LdapClient.StaleConnectionRecovers | wazo_dird/plugins/ldap_backend/plugin.py:385-392 | when the first query fails on an old connection and the new bind works, the answer of the second query is returned |
| LdapClient.RunConsistent | wazo_dird/plugins/ldap_backend/plugin.py:336-421 | in every run of set-ups, searches and closings one after the other the log follows the connection protocol, whatever the server answers |
| LdapClient.RunSafe | wazo_dird/plugins/ldap_backend/plugin.py:336-421 | in every run of calls one after the other, connections opened minus unbound is 1 if set up and 0 otherwise, none is unbound twice, and queries go to bound open connections only |
| LdapThreads.ApartIsSafe | wazo_dird/plugins/ldap_backend/plugin.py:336-421 | statement by statement, with any number of searching and closing threads whose calls do not overlap: nothing raises, no connection is unbound twice, and queries go to bound open connections only |
| LdapThreads.CloseDuringSearch | wazo_dird/plugins/ldap_backend/plugin.py:59-61 | closing the plugin, which takes no lock, while the query of a search fails: both unbind the connection |
| LdapThreads.AlwaysSafeIff | wazo_dird/plugins/ldap_backend/plugin.py:59-117 | n searching and m closing threads are safe in every schedule if and only if nobody closes, or one thread closes and nobody searches |
| SourceResult.SourceResult.AddFormattedColumns | wazo_dird/plugins/source_result.py:91-94 | columns are written in order, each with the text of its template from the fields as the earlier ones left them: literal characters and values in order, missing fields empty, cut of white space at both ends, and None when nothing is left or a field is positional |
| SourceResult.SourceResult.constructor | wazo_dird/plugins/source_result.py:52-86 | the unique identifier is the text of the unique field before any column is formatted; the fields are then those with the columns written in order |
| SourceResult.TemplateIff | wazo_dird/plugins/source_result.py:14-38 | pieces are read from a template exactly when they spell it |
| SourceResult.FormatIs | wazo_dird/plugins/source_result.py:14-38 | what text a template gives, by its pieces: one part of the text for each piece, in order, and nothing but white space cut |
| SourceResult.FormattedInTurn | wazo_dird/plugins/source_result.py:91-94 | all columns, in any number: the fields at the end come from writing each column once, in order, from those before it |
| SourceResult.OneFieldColumn | wazo_dird/plugins/source_result.py:91-94 | the template `pre{name}post` gives pre, the value and post |
| SourceResult.FindFieldsAreWords | wazo_dird/plugins/ldap_backend/plugin.py:205-218 | the regular expression finds exactly the word fields of the parsed template, in order |
| SourceResult.AttributesAre | wazo_dird/plugins/ldap_backend/plugin.py:205-218 | the attributes asked for are exactly the unique column and the word fields of the templates; all are asked for when there is no format column |
| SourceResult.ProjectionPreservesColumns | wazo_dird/plugins/source_result.py:29-38 | formatting an entry cut to some attributes gives the columns of the full entry for all entries, if and only if every name a template reads is among them or written by an earlier column |
| SourceResult.ProjectionPushdown | wazo_dird/plugins/ldap_backend/plugin.py:205-218 | templates of literal text and word fields: the attributes asked for are enough for the formatted columns and the unique identifier |
| SourceCache.SourceManager.Get | wazo_dird/source_manager.py:53-59 | a cached plugin is given back and the cache left alone; otherwise what the load gives is cached under the uuid and given back: nothing for an unknown source or a failed build, and the built plugin also when its load raised; only a plugin that loaded is stored under its name |
| SourceCache.LoadAnswers | wazo_dird/source_manager.py:105-128 | the same of every load in an interleaved run |
| SourceCache.SourceManager.LoadSource | wazo_dird/source_manager.py:65-128 | a plugin is also stored under its name, unless its load raised |
| SourceCache.SourceManager.Invalidate | wazo_dird/source_manager.py:61-63 | drops the plugin kept under the uuid and no other |
| SourceCache.RunInv | wazo_dird/source_manager.py:53-94 | invariant of every interleaving: mutual exclusion, and each version a cached or half-loaded plugin misses belongs to an edit still to invalidate |
| SourceCache.NoStaleGet | wazo_dird/plugins/source_service/plugin.py:45-54 | once the edit that committed version k has returned, no get of that existing source returns a plugin loaded from an older version |
| SourceCache.StaleOnlyWhilePending | wazo_dird/source_manager.py:53-63 | a cached plugin is behind the database only while every edit it misses is committed and not yet invalidated; when none is, it is current |
| DeletedSources.DeletedSourceIff | wazo_dird/plugins/source_service/plugin.py:40-54 | every later get of a deleted source, in every continuation, gives what the cache has for it, if and only if no pending edit could drop a cached plugin and no load begun before the deletion could store one |
| DeletedSources.DeletedSourceServedIff | wazo_dird/source_manager.py:53-63 | with no thread at work on it, a deleted source is served exactly when its plugin was in the cache, and with that plugin |
| DeletedSources.DeletedSourceStillServed | wazo_dird/plugins/source_service/plugin.py:40-43 | a run in which a deleted source is served |
| ReverseService.Request.Cancel | wazo_dird/plugins/reverse_service/plugin.py:62 | only a task that no worker has taken is cancelled |
| ReverseService.Request.CancelPending | wazo_dird/plugins/reverse_service/plugin.py:59-65 | no task is left queued, even when workers take tasks between `done()` and `cancel()`; only queued tasks are cancelled |
| ReverseService.ReverseMany | wazo_dird/plugins/reverse_service/plugin.py:67-110 | in any schedule: no task left queued; it stops at the first moment all extensions are known; entry i answers the i-th distinct extension with what the last completed source that knows it says, and is empty if none does; without timeout it is filled exactly when some source knows the extension |
| ReverseService.Reverse | wazo_dird/plugins/reverse_service/plugin.py:124-160 | in any schedule: no task left queued; a contact is one that a completed source returns, all that completed before it being silent; without timeout there is none only if every source is silent |
| ReverseService.AnsweredWhateverTheSchedule | wazo_dird/plugins/reverse_service/plugin.py:96-110 | all sources done, or stopped early with all answered: the answered extensions are the union of what the non-failing sources match, whatever the order |
| ReverseService.AnswerComesFromASource | wazo_dird/helpers.py:54-63 | every answer, timed out or not, is that of the last completed source that knows the extension |
| ReverseService.AnsweredGrows | wazo_dird/plugins/reverse_service/plugin.py:98-103 | more completed sources never lose an answered extension |
| FirstOccurrences.DistinctInFirstOccurrenceOrder | wazo_dird/plugins/reverse_service/plugin.py:96-110 | the keys of a dict filled from a list stand in the order of first occurrence |
| ContactRows.ListContactsByUuid | wazo_dird/database/queries/base.py:37-50 | one contact for each distinct uuid in first-occurrence order: its names are `id` and those of its rows, each with the value of its last row |
| ContactRows.GroupFields | wazo_dird/database/queries/phonebook.py:419-423 | the same for the grouping loop of the phonebook's list, without `id` |
| ContactRows.BuildExtenContactMap | wazo_dird/database/queries/base.py:60-79 | the answered extensions are the asked ones that a row shows in a match column; each is answered by the contact of the first such row: `id` and all names of its rows, those after the match included, each with the value of its last row |
| ContactStore.ExtenMapGivesStored | wazo_dird/database/queries/base.py:60-79 | under the invariant the contact that answers an extension is a stored contact, complete, that shows the extension in a match column |
| ContactRows.FirstOwnerIff | wazo_dird/database/queries/base.py:73-78 | an extension is found exactly when a row shows it in a match column, and then its owner has such a row |
| ContactRows.PreselectionIsInvisible | wazo_dird/database/queries/personal.py:49-75 | reading only the rows of the contacts the subquery selects gives the same map as reading all the owner's rows |
| ContactRows.BatchFindsWhatOneFinds | wazo_dird/database/queries/personal.py:49-75 | the batch answers an asked extension exactly when a row of the owner shows it in a match column |
| ContactRows.FindFirstContact | wazo_dird/database/queries/personal.py:43-47 | the one-by-one lookup gives at most one contact, whole and showing the term, and gives one exactly when a batch with the term answers it |
| ContactRows.RegroupGivesFields | wazo_dird/database/queries/base.py:44-50 | any listing of the rows that spell a contact, in any order and with repetitions, regroups to that contact |
| ContactStore.ContactReadsBack | wazo_dird/database/queries/base.py:53-57 | under the invariant, reading back any listing gives the hashed content plus the uuid as `id`, and its hash is the stored one |
| ContactStore.SavedBodyReadsBack | wazo_dird/database/queries/base.py:37-57 | a saved body reads back as it is with its contact's uuid as `id`; a phonebook's body with no other key reads back empty |
| ContactStore.SameHashIff | wazo_dird/database/queries/base.py:53-57 | two bodies have one hash exactly when they differ in their `id` at most |
| ContactStore.GrowsKeepsInv | wazo_dird/database/models.py:32-38 | adding the missing contents keeps the invariant and makes the owner's contents the union |
| ContactStore.RemoveKeepsInv | wazo_dird/database/models.py:77-79 | deleting contacts with their rows keeps the invariant |
| ContactStore.ReplacedKeepsInv | wazo_dird/database/models.py:32-38 | replacing a contact's content by one no other contact of the owner has keeps the invariant |
| ContactStore.GrowthIsUniqueUpToIds | wazo_dird/database/queries/personal.py:211-231 | two results of the same bulk creation have the same contents for every owner and the same number of contacts |
| PersonalContacts.PersonalContactCRUD.CreateInSession | wazo_dird/database/queries/personal.py:198-237 | duplicates refused when asked; otherwise each new content becomes one contact and the last body of each content gets its contact's id; a supplied id that is taken breaks the session |
| PersonalContacts.PersonalContactCRUD.Create | wazo_dird/database/queries/personal.py:177-196 | all or nothing: commits exactly that, or leaves the tables as they were, with the exact condition for each outcome |
| PersonalContacts.PersonalContactCRUD.Delete | wazo_dird/database/queries/personal.py:286-315 | removes exactly the user's contact, or all of them, and counts them; unknown contact: nothing changes |
| PersonalContacts.PersonalContactCRUD.Edit | wazo_dird/database/queries/personal.py:249-267 | an atomic replace keeping the id: unknown contact and duplicate leave the tables unchanged, and nothing else can fail |
| PhonebookContacts.Validate | wazo_dird/plugins/phonebook_service/plugin.py:205-214 | rejects empty bodies and empty keys, then drops `id` |
| PhonebookContacts.PhonebookContactCRUD.CreateOne | wazo_dird/database/queries/phonebook.py:294-332 | the outcome of each fault and of a duplicate, and the contact with its rows when it is created |
| PhonebookContacts.PhonebookContactCRUD.CreateEntries | wazo_dird/database/queries/phonebook.py:246-283 | under savepoints, exactly the entries without fault land, the errors are the positions that fail, and the report lists what was created |
| PhonebookContacts.PhonebookContactCRUD.CreateEntry | wazo_dird/database/queries/phonebook.py:251-283 | one entry: created, skipped as a duplicate, or undone by its savepoint and reported |
| PhonebookContacts.PhonebookContactCRUD.CreateMany | wazo_dird/database/queries/phonebook.py:240-292 | one failing entry undoes all; otherwise the body's contents are all there and `created` lists the new ones in body order |
| PhonebookContacts.PhonebookContactCRUD.ImportContacts | wazo_dird/plugins/phonebook_service/plugin.py:173-203 | invalid bodies are reported by position and nothing is touched; otherwise as the bulk creation of the validated bodies |
| PhonebookContacts.PhonebookContactCRUD.Create | wazo_dird/plugins/phonebook_service/plugin.py:107-116 | creates the validated contact or changes nothing, with the condition for each outcome |
| PhonebookContacts.PhonebookContactCRUD.Edit | wazo_dird/database/queries/phonebook.py:350-379 | replaces content and rows keeping the uuid, or changes nothing, with the condition for each outcome; a rejected field row is not mapped to an update error, as it comes up at the commit |
| PhonebookContacts.PhonebookContactCRUD.Delete | wazo_dird/database/queries/phonebook.py:334-348 | removes exactly the phonebook's contact, or nothing |
| PhonebookContacts.InvalidPositionsIff | wazo_dird/plugins/phonebook_service/plugin.py:184-197 | the errors of the first phase are exactly the positions of the invalid bodies, ascending |
| PhonebookContacts.FailuresIff | wazo_dird/database/queries/phonebook.py:251-283 | the errors of the second phase are exactly the positions that fail without repeating the phonebook or an earlier success, ascending |
| PhonebookContacts.PhonebookRowsAreStored | wazo_dird/database/queries/phonebook.py:425-435 | the field rows and the repeated `id` rows are together the contact's fields plus its id, and none for an empty body |
| PhonebookListing.List | wazo_dird/database/queries/phonebook.py:405-423 | every listed contact is a whole contact of the search, every such contact with rows is listed, and the length is `count` if and only if a search is given or no contact is without fields |
| PhonebookListing.Get | wazo_dird/database/queries/phonebook.py:381-403 | gives the whole contact, or no such contact; the latter also for a contact without fields |
| PhonebookListing.ListedContactsAreWhole | wazo_dird/database/queries/phonebook.py:178-188 | a search that one field matches lists all the fields of the contact |
| PhonebookListing.ListedContactsAreCounted | wazo_dird/database/queries/phonebook.py:198-223 | `count` equals the length of the unpaginated list under exactly that condition, in any listing of the rows |
| PhonebookListing.BareContact | wazo_dird/plugins/phonebook_service/plugin.py:205-214 | a body with only `id` is accepted and makes a contact that `count` counts and that has no row to list |
| PhonebookListing.BareBodies | wazo_dird/plugins/phonebook_service/plugin.py:205-214 | among the accepted bodies, those whose one key is `id` are the ones without content |
| ContactRuns.StepBare | wazo_dird/plugins/phonebook_service/plugin.py:205-214 | from a store without contacts without content, an operation makes one exactly when it saves such a body in a phonebook |
| ContactRuns.RunCountsItsLists | wazo_dird/database/queries/phonebook.py:198-223 | in every run from such a store, `count` is the length of `list` in all its states, for every phonebook, search and listing, if and only if no operation saves a body with only `id` |
| ContactRuns.RunKeeps | wazo_dird/database/queries/personal.py:198-315 | in every run of creations, imports, edits, deletions and purges, failed ones included, the invariant holds and an owner that no successful operation names keeps all contacts and rows |
| ContactRuns.ReachableContactReadsBack | wazo_dird/database/queries/base.py:37-57 | in every reachable state each contact reads back as its hashed content plus its id, and its hash is that of what is read |
| ContactRuns.ImportUnites | wazo_dird/database/queries/phonebook.py:240-292 | a successful import unites the contents and adds one contact for each created entry |
| ContactRuns.NewContentsAreFirstOccurrences | wazo_dird/database/queries/phonebook.py:251-292 | what is created: exactly the new contents, ordered by first occurrence in the body |
| ContactRuns.SecondImportCreatesNothing | wazo_dird/database/queries/phonebook.py:261-268 | importing the same body again creates nothing and changes nothing, whatever faults its entries meet |
| ContactRuns.BulkCreateWhateverTheOrder | wazo_dird/database/queries/personal.py:217-235 | the iteration order of the hash set and the generated uuids do not change the outcome nor the contents of any owner |
| ContactRuns.EditToOwnContent | wazo_dird/database/queries/personal.py:249-267 | editing a contact to its own content succeeds and changes nothing |
| ContactRuns.LastEditWins | wazo_dird/database/queries/personal.py:249-267 | two edits in a row end as the second one alone |
| MatchAll.BaseMatchAll | wazo_dird/plugins/base_plugins.py:140-145 | the reference: each term's first match and no other key, and nothing at all when one lookup raises |
| MatchAll.MatchTermByTerm | wazo_dird/plugins/google_backend/plugin.py:154-160 | the term-by-term loop keeps the last matching contact of each term, or raises |
| MatchAll.MatchContactByContact | wazo_dird/plugins/conference_backend/plugin.py:121-127 | the contact-by-contact loop keeps the same, and raises in the same cases |
| MatchAll.ByLastIff | wazo_dird/plugins/office365_backend/plugin.py:163-169 | the last-wins form answers if and only if no comparison raises, and then exactly the asked terms that some contact matches, each with a matching contact |
| MatchAll.BatchAgreesIff | wazo_dird/plugins/base_plugins.py:140-145 | the one-by-one and the last-wins form both answer, and the same terms, if and only if no comparison of an asked term with a contact raises |
| MatchAll.RaisingContactLosesAll | wazo_dird/plugins/google_backend/plugin.py:155-160 | a contact that raises after a match: the one-by-one form answers, the batch does not |
| MatchAll.AddressLosesNumber | wazo_dird/plugins/office365_backend/plugin.py:190-200 | with the addresses among the match columns of office365: a contact with an address, a dict in a list, raises, and the batch loses the answer that one-by-one gives for another contact's number |
| MatchAll.SameAnswerIff | wazo_dird/plugins/office365_backend/plugin.py:163-169 | for a term, the two forms give the same answer if and only if its first and its last matching contact do |
| MatchAll.TwoMatchesDiffer | wazo_dird/plugins/office365_backend/plugin.py:163-169 | two contacts that match and look different: the forms answer differently |
| MatchAll.SameNumberDiffers | wazo_dird/plugins/google_backend/plugin.py:130-160 | two contacts with the same number and different names, for each of the three backends: one-by-one answers the first, the batch the last |
| MatchAll.FindFirst | wazo_dird/plugins/google_backend/plugin.py:130-135 | the loop of `first_match` stops at the first contact that matches or raises |
| MatchAll.MatchPredicate | wazo_dird/plugins/google_backend/plugin.py:162-178 | the predicates of the three backends scan the texts of the match columns in order, with their own type tests, and stop at the first that matches or cannot be compared |
| MatchAll.ScanIff | wazo_dird/plugins/conference_backend/plugin.py:133-144 | the verdict without the scan: a match exactly when some text equals the term, letter case aside, and nothing before it raises; no match exactly when all are comparable and different |
| MatchAll.VerdictIff | wazo_dird/plugins/google_backend/plugin.py:162-178 | which contacts match, for each backend and its own kinds of values: when all texts are comparable, exactly those with a text in a match column that equals the term, letter case aside; otherwise it raises unless there is such a text |
| MatchAll.GoogleMatchAll | wazo_dird/plugins/google_backend/plugin.py:137-160 | google gives the last-wins form on the fetched contacts, and nothing without a token |
| MatchAll.UpdateContactFields | wazo_dird/plugins/office365_backend/plugin.py:213-222 | every contact of the list is updated in place: its email, its numbers and its labelled numbers, each from the fields as the ones before left them, a missing given name empty, and every other field as it was |
| MatchAll.OfficeMatchAll | wazo_dird/plugins/office365_backend/plugin.py:148-169 | office365 gives the last-wins form on the contacts as updated |
| MatchAll.EmptyTermIff | wazo_dird/plugins/google_backend/plugin.py:162-178 | the empty term matches a comparable contact exactly when a match column is missing, falsy or holds an empty text |
| WazoBackend.FindFirstEntry | wazo_dird/plugins/wazo_user_backend/plugin.py:113-130 | the formatted entry of the first user of the answer that shows the term in a match column; none exactly when no user does |
| WazoBackend.FirstWithIs | wazo_dird/plugins/wazo_user_backend/plugin.py:113-130 | the same of the specification, by positions in the answer |
| WazoBackend.MatchAllTerms | wazo_dird/plugins/wazo_user_backend/plugin.py:132-163 | the batch path is taken exactly when every match column is an extension or a mobile number and there are at least as many terms as columns; one by one, each term gets the first user that shows it; by batch, the last listed user of the last column that shows it; terms that nobody shows are left out |
| WazoBackend.WinnerOfIs | wazo_dird/plugins/wazo_user_backend/plugin.py:151-163 | the entry the batch keeps, by positions: the last listed one of the last column in which the term is shown |
| WazoBackend.FallbackIsOneByOne | wazo_dird/plugins/wazo_user_backend/plugin.py:143-149 | the fallback path is the one-by-one definition |
| LastWins.AbsorbColumn | wazo_dird/plugins/wazo_user_backend/plugin.py:155-158 | a pass for one column gives each asked term found there its last entry and leaves the other results as they are |
| LastWins.LastInIs | wazo_dird/plugins/wazo_user_backend/plugin.py:155-158 | the entry a pass keeps for a term, by positions: the last that shows it |
| WazoBackend.ReadIff | wazo_dird/plugins/wazo_user_backend/plugin.py:152-154 | the server reads a term in the merged list exactly when the term has no comma |
| WazoBackend.PathsAgree | wazo_dird/plugins/wazo_user_backend/plugin.py:132-163 | the two paths answer the same terms if and only if no user has an asked term with a comma in a match column; the batch never answers more, and every answer shows its term |
| WazoBackend.SameEntryIff | wazo_dird/plugins/wazo_user_backend/plugin.py:113-163 | for a term of the batch, the two paths give the same entry however the server answers searches, if and only if all the users with the term look the same once formatted |
| CsvCache.CsvPlugin.LoadFile | wazo_dird/plugins/csv_backend/plugin.py:112-135 | rows and time change together, only after a complete read of a file with another time; there is then one entry for each row after the header, in order, whose names are the header names at the positions of the row, each with the cell at its last position; failures keep both, and the exact ones that pass an exception |
| CsvCache.RowToDictPairs | wazo_dird/plugins/csv_backend/plugin.py:180-182 | header and row paired: a name is there exactly when it stands in the header at a position of the row, with the cell at the last of these |
| CsvCache.RunInv | wazo_dird/plugins/csv_backend/plugin.py:120-131 | any number of threads whose loads do not overlap, and a writer interleaved anywhere, also between `stat` and `open`: what is read or cached under a time is what the file has, if it still has that time |
| CsvCache.ApartIsFresh | wazo_dird/plugins/csv_backend/plugin.py:112-135 | in every such run, as under a lock, a recorded time that is the file's means the cached rows are the file's |
| CsvCache.TwoLoadersGoStale | wazo_dird/plugins/csv_backend/plugin.py:126-131 | two overlapping loads can end with the old rows under the new time, and no thread at work |
| CsvCache.RowsStay | wazo_dird/plugins/csv_backend/plugin.py:121-123 | once the recorded time is the file's and no thread is loading, rows and time stay in every continuation, for any number of threads, until the file changes |
| CsvCache.StaleForGood | wazo_dird/plugins/csv_backend/plugin.py:112-135 | so, with two threads or more, the old rows can stay through any number of later loads of the same file |
| CsvCache.FreshIffOneLoader | wazo_dird/plugins/csv_backend/plugin.py:112-135 | without such a restriction, the cache is fresh in every interleaving of n threads if and only if n is at most one |
| CsvCache.UnchangedTimeServesCurrentRows | wazo_dird/plugins/csv_backend/plugin.py:121-123 | a load that finds the time unchanged serves the rows the file has at that moment, if loads do not overlap |

## Left out

- HTTP resources, access control, schemas, GraphQL, configuration, bus events, service discovery and plugin loading: plumbing over libraries.
- `BackendService._filter_matches`, profile source filtering, sorting, pagination, the confd client registry and number formatting: single-branch claims.
- LdapMatch.BatchMatchesFilters: multi-valued attributes, matching rules, case-insensitive attribute names and `sizelimit` belong to the server and are not modelled; `first_match` is represented by its filter.
- Rfc4515.ParseIff: an extensible match is read as an attribute with its rule in one piece, attribute names are not checked further than the characters they may not hold, and octets of a value are not checked to be UTF-8.
- LdapClient.RunSafe: `initialize`, `set_option` and `unbind_s` are taken not to fail.
- LdapUniqueId.ConvertedUidDecodes: the 32 characters left of a UUID are hexadecimal digits; the spaces, sign, underscores and `0x` that `int` also accepts among them are not read.
- SourceResult.ProjectionPushdown: doubled braces, conversions, format specifications and attribute or index lookups in templates are not modelled, nor a column named `self` or `format_string`, nor non-ASCII white space.
- SourceCache.NoStaleGet: unloading of plugins is not modelled, as the code does none on invalidation.
- ReverseService.ReverseMany: a source that answers for an extension it was not asked about is excluded, as every `match_all` modelled here promises; `args` shared between tasks is not modelled.
- Concurrent database sessions are not modelled: the sessions are one after the other, so the race inside `_create_tenant` and a duplicate inserted between check and insert are out.
- Tenants, the lookup of a phonebook by its key and its visibility, and the creation of users and tenants are not modelled; owners are given.
- Values are texts: JSON null, numbers and nested values in a contact body, the column widths of the tables, SHA-1 and JSON encoding are out, and the hash is the content it is computed from.
- ContactStore.ContactReadsBack: the rows are a set; the repeated `id` rows are covered by listings that may repeat rows.
- PersonalContacts.PersonalContactCRUD.CreateInSession: the same dict object given twice in one list is not modelled, and generated uuids are new by assumption.
- `ilike`, `unaccent` and `unidecode` are arbitrary predicates on values; `find_first_contact` of the phonebook engine, which compares with `ilike`, is not related to its exact batch form.
- MatchAll.MatchPredicate: `str.lower`, `str` of a scalar or a dict, the services of office365 and the formatting of a contact are arbitrary functions; fetching the contacts is left out.
- WazoBackend.MatchAllTerms: the users are given as `SourceResult` gets them; the valid keys and the full name put into them before are not modelled.
- WazoBackend.PathsAgree: stated against a server that answers a search with at least the exact matches and a column query with exactly the listed values; network failures are out.
- CsvCache.ApartIsFresh: opening and reading the file is one step, and the CSV lexer is not modelled.
