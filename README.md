# Defnix site core in Dafny

This project models the data-handling core of the Defnix marketing site. The site is a NestJS and TypeORM backend with a Next.js frontend. It proves properties of that model.

**Backend.**
- Every service is a class whose tables are `seq` fields. Its methods change them as the service's repository calls would.
- Each service covers blog posts, newsletter subscribers, case studies, leads, sitemap and robots text, analytics events, the admin login, or media assets.
- The global validation pipe is a validator from a JSON body to a DTO, applied to `CreatePostDto`, `UpdatePostDto` and `CreateLeadDto`.
- The ORM's `where`, `order … DESC`, `skip`/`take` and `findOne` are functions over sequences. They are shared by all services (`Query`).
- The blog seed script's find-or-create loops are imperative methods. Each is specified by a recursive function over the list of definitions.

**Frontend.**
- The fetch helpers of `frontend/src/lib/api.ts` are modelled: URL building, headers, how a reply becomes a value, `undefined` or an `ApiError`, and clearing the stored token on a 401.
- So are the mapping functions of the public blog and case-study listings, with their built-in fallback content.

**What stays outside as parameters.** Nothing here talks to a database, a clock or the network. Those become parameters:
- `now` is the clock reading of a request.
- `id` is the key the database generates, and `requires` says it is fresh.
- `slugify` is the slug library.
- `compare` and `sign` are bcrypt and JWT signing.
- `isEmail` is the e-mail check of the validation library.
- `iso` is `Date.toISOString`.
- `server` maps a request to a reply.
- `parse` is JSON parsing.
- `copy` is the marketing text of the fallback posts and case studies.
- In the browser session, `inBrowser` says whether `window` exists.

**Behaviour of the code worth noting:**
- The public `findBySlug` applies no status filter, so drafts are returned.
- `update` recomputes the reading time only for non-empty content.
- Reading time counts the pieces of `split(/\s+/)`, not words. Leading or trailing whitespace adds an empty piece, and an empty text is one piece.
- `create` attaches tags and categories only for a non-empty id list.

## Model

| member | source | states |
|---|---|---|
| Common.OrDefault | frontend/src/app/blog/page.tsx:95-97 | `x \|\| fallback` for a string: the value when present and non-empty, the fallback otherwise |
| Text.SplitWs | backend/src/modules/blog/blog.service.ts:57 | `split(/\s+/)` yields at least one piece, and no piece contains whitespace |
| Text.SplitWsCount | backend/src/modules/blog/blog.service.ts:57 | the number of pieces is one more than the number of whitespace runs, counted by an independent left-to-right scan |
| Text.Lower | backend/src/modules/blog/blog.service.ts:47-48 | case folding for ILIKE keeps the length and lowers each character |
| Text.EmptyQueryMatches | backend/src/modules/blog/blog.controller.ts:37 | `ILIKE '%%'` (a missing query becomes `''`) matches every text |
| Text.Digits | backend/src/modules/analytics/analytics.service.ts:37 | the decimal text of a count is non-empty and made of digits |
| Text.ParseDigitsRoundTrip | backend/src/modules/analytics/analytics.service.ts:37 | `parseInt(text, 10)` of a count's decimal text gives the count back |
| Text.IndexOf | backend/src/modules/media/media.service.ts:17 | the position of the first separator, or the length when there is none |
| Text.SplitOn | backend/src/modules/media/media.service.ts:17 | `split(c)` yields at least one piece and no piece contains `c` |
| Text.SplitOnJoin | backend/src/modules/media/media.service.ts:17 | joining the pieces with `c` gives the text back |
| Text.IndexOfAppend | backend/src/modules/media/media.service.ts:17 | the first separator of two texts joined is that of the first text when it has one, and otherwise lies in the second |
| Text.SplitOnNone | backend/src/modules/media/media.service.ts:17 | a text without the separator splits into itself alone |
| Text.SplitOnFirst | backend/src/modules/media/media.service.ts:17 | a split is the piece before the first separator followed by the split of what comes after it |
| Text.SplitOnAppend | frontend/src/app/case-studies/page.tsx:101 | splitting two texts joined by the separator gives the pieces of the first, then those of the second |
| Query.Filter | backend/src/modules/blog/blog.service.ts:21 | `where` keeps exactly the rows satisfying the condition, and nothing else |
| Query.SortDesc | backend/src/modules/blog/blog.service.ts:22 | `order: DESC` returns a permutation of the rows, sorted by the key, largest first |
| Query.TakeAtMost | backend/src/modules/analytics/analytics.service.ts:22 | `take: n` returns the first `min(n, size)` rows |
| Query.TakeOfSorted | backend/src/modules/analytics/analytics.service.ts:21-22 | the first rows of a sorted listing are sorted and belong to it |
| Query.TakeOfSortedNewest | backend/src/modules/analytics/analytics.service.ts:21-22 | the first `n` rows of a listing sorted newest first are the newest rows: no row left out has a larger key than a row kept |
| Query.TakeNewest | backend/src/modules/analytics/analytics.service.ts:19-23 | `order … DESC` with `take: n` on any rows returns `min(n, size)` of them, sorted, drawn from the rows, all of them when there are no more than `n`, and none left out is newer than one returned |
| Query.Window | backend/src/modules/blog/blog.service.ts:23-24 | skip/take: refused exactly when the offset or the limit is negative; otherwise a run of consecutive rows starting at `skip`, none past the end, every remaining row when `take` is 0 (the ORM drops a falsy `take`) or reaches past the end, and exactly `take` rows otherwise |
| Query.Skipped | backend/src/modules/blog/blog.service.ts:23 | `(page - 1) * limit` is not negative for a page ≥ 1 and a limit ≥ 0 |
| Query.PageOfSorted | backend/src/modules/blog/blog.service.ts:30-34 | a page of a sorted listing is sorted and holds only rows of the listing |
| Query.FindFirst | backend/src/modules/blog/blog.service.ts:39 | `findOne` returns the first matching row, or none when no row matches |
| BlogEntities.ParseStatus | backend/src/modules/blog/entities/blog-post.entity.ts:16-20 | a text is a post status exactly when it is one of the three enum values, and it reads back as that text |
| Validation.Convert | backend/src/main.ts:32-35 | implicit conversion turns a number, boolean or object into a string for a string property; strings, null and arrays pass through; array properties are not converted |
| Validation.Declares | backend/src/main.ts:30-31 | a property is whitelisted exactly when some rule of the DTO names it |
| Validation.Offending | backend/src/main.ts:29-36 | the properties reported: every undeclared property of the body, every declared one failing its check, and nothing else |
| Validation.StringsOf | backend/src/modules/blog/dto/post.dto.ts:36-39 | an array of strings keeps its length and its values |
| Validation.StringFieldCarries | backend/src/main.ts:29-36 | a string property that passed its check reaches the DTO as the converted body value: absent when the body lacks it, null when it sent null |
| Validation.ArrayFieldCarries | backend/src/main.ts:29-36 | an array property that passed its check reaches the DTO as the list of strings the body sent |
| PostDto.ValidateCreatePost | backend/src/modules/blog/dto/post.dto.ts:4-45 | the body is accepted exactly when nothing is offending, and an error names the offending properties; an accepted body has a non-empty title, only declared properties, and every DTO field holds what the body sent (`CreateFromBody`) |
| PostDto.ValidateUpdatePost | backend/src/modules/blog/dto/post.dto.ts:47-90 | as for create, with every property optional: a given title is non-empty and every DTO field holds what the body sent (`UpdateFromBody`) |
| PostDto.ServerControlledFieldsRejected | backend/src/modules/blog/dto/post.dto.ts:4-90 | a body carrying `slug`, `readingTime` or `publishedAt` is refused on create and on update, and the property is named |
| PostDto.ServerControlledUndeclared | backend/src/modules/blog/dto/post.dto.ts:4-90 | neither DTO declares `slug`, `readingTime` or `publishedAt` |
| PostDto.CreateRequiresTitleAndContent | backend/src/modules/blog/dto/post.dto.ts:5-10 | a create body without a title or without content is refused |
| PostDto.EmptyUpdateAccepted | backend/src/modules/blog/dto/post.dto.ts:47-90 | the empty update body is accepted and every field is absent |
| PostDto.UnknownStatusRejected | backend/src/modules/blog/dto/post.dto.ts:24-26 | a status outside the enum is refused on create and on update |
| PostDto.TagIdsMustBeStrings | backend/src/modules/blog/dto/post.dto.ts:36-39 | a tag list holding a non-string is refused on create and on update |
| PostDto.StatusFieldCarries | backend/src/modules/blog/dto/post.dto.ts:24-26 | a status that passed its enum check reaches the DTO as the enum value the body named; absent and null stay absent and null |
| PostDto.StringPropertiesCarried | backend/src/modules/blog/dto/post.dto.ts:4-45 | with nothing offending, every declared string property reaches the DTO as the body sent it, after conversion |
| PostDto.StatusAndIdsCarried | backend/src/modules/blog/dto/post.dto.ts:24-39 | with nothing offending, the status and both id lists reach the DTO as the body sent them |
| LeadDto.ValidateLead | backend/src/modules/leads/dto/create-lead.dto.ts:3-22 | accepted exactly when nothing is offending; an accepted lead has a name, an e-mail the e-mail check accepts, a message of at least 10 characters, only declared properties, and each field holds what the body sent |
| LeadDto.StatusRejected | backend/src/modules/leads/dto/create-lead.dto.ts:3-22 | a client cannot set `status`: a body carrying it is refused and `status` is named |
| LeadDto.ShortMessageRejected | backend/src/modules/leads/dto/create-lead.dto.ts:15-17 | a message shorter than 10 characters is refused and named |
| LeadDto.RequiredOnlyAccepted | backend/src/modules/leads/dto/create-lead.dto.ts:3-22 | the three required properties alone, each valid, give a lead without company or source |
| LeadDto.RequiredOnlyDeclared | backend/src/modules/leads/dto/create-lead.dto.ts:3-22 | `name`, `email` and `message` are declared properties |
| LeadDto.RequiredOnlyHold | backend/src/modules/leads/dto/create-lead.dto.ts:3-22 | valid required properties, with the optional ones missing, satisfy all five rules |
| Blog.ReadingTime | backend/src/modules/blog/blog.service.ts:57 | `ceil(pieces / 200)`: at least 1, and the piece count lies in `((n-1)*200, n*200]` |
| Blog.ReadingTimeFromRuns | backend/src/modules/blog/blog.service.ts:57 | the same bound stated over the number of whitespace runs plus one |
| Blog.TagsByIds | backend/src/modules/blog/blog.service.ts:67 | `findByIds` returns exactly the tags whose id is listed; an empty list gives none |
| Blog.CategoriesByIds | backend/src/modules/blog/blog.service.ts:70 | the same for categories |
| Common.Merge | backend/src/modules/blog/blog.service.ts:90 | `Object.assign` on a nullable column: absent keeps, null clears, a value replaces |
| Common.MergeRequired | backend/src/modules/blog/blog.service.ts:90 | `Object.assign` on a NOT NULL column: absent keeps, a value replaces |
| Blog.NewPost | backend/src/modules/blog/blog.service.ts:55-71 | the created row: slug from the title, reading time ≥ 1, `publishedAt` set exactly when created as published, status `draft` by default, tags and categories only for non-empty lists |
| Blog.CreateResult | backend/src/modules/blog/blog.service.ts:55-74 | a null status violates NOT NULL; a taken slug violates UNIQUE; otherwise the new row, whose slug is unused |
| Blog.Assign | backend/src/modules/blog/blog.service.ts:90 | every DTO property present is copied; everything else, including derived columns and relations, is kept |
| Blog.Derive | backend/src/modules/blog/blog.service.ts:80-88 | slug re-derived only for a non-empty title; reading time only for non-empty content; `publishedAt` stamped only when publishing a never-published post, never cleared |
| Blog.Relink | backend/src/modules/blog/blog.service.ts:92-97 | a present list replaces tags or categories wholesale (an empty list clears them); an absent one keeps them |
| Blog.UpdatedPost | backend/src/modules/blog/blog.service.ts:76-97 | the updated row keeps its id and creation time and follows the derive, copy and relink rules above |
| Blog.Stamped | backend/src/modules/blog/blog.service.ts:99 | the save moves `updatedAt` exactly when a column changed |
| Blog.IndexOfPost | backend/src/modules/blog/blog.service.ts:77 | the lookup by id finds a row with that id, or reports that none has it |
| Blog.NullColumn | backend/src/modules/blog/blog.service.ts:90 | an update sets a NOT NULL column to null exactly when title, content or status is null |
| Blog.UpdateResult | backend/src/modules/blog/blog.service.ts:76-100 | an unknown id is NotFound; a null on a NOT NULL column is refused; otherwise the assigned row is refused exactly when another post holds its slug, and otherwise returned with the same id, its `updatedAt` set to the request time when a column changed (`Blog.Stamped`) |
| Blog.PublishedAtKept | backend/src/modules/blog/blog.service.ts:86-90 | once set, `publishedAt` survives every successful update, whatever the new status |
| Blog.IdIndexUnique | backend/src/modules/blog/blog.service.ts:77 | with unique ids the lookup finds exactly the row holding the id |
| Blog.EmptyTagList | backend/src/modules/blog/blog.service.ts:66-68 | an empty tag list attaches nothing on create and clears the tags on update |
| Blog.EmptyContentKeepsReadingTime | backend/src/modules/blog/blog.service.ts:83-85 | content `""` replaces the content and keeps the old reading time |
| Blog.Hits | backend/src/modules/blog/blog.service.ts:46-49 | the search condition selects exactly the published posts whose title or content contains the query, ignoring case |
| Blog.EmptyQueryHitsPublished | backend/src/modules/blog/blog.service.ts:46-49 | an empty query selects every published post |
| Blog.PublishedNewestFirst | backend/src/modules/blog/blog.service.ts:21-22 | exactly the published posts, each as often as in the table, newest publication first |
| Blog.BlogService.constructor | backend/src/modules/blog/blog.service.ts:10-17 | the service starts with no posts and the given tag and category tables |
| Blog.BlogService.FindAll | backend/src/modules/blog/blog.service.ts:19-27 | refused exactly when the offset or the limit is negative, so every page ≥ 1 with a limit ≥ 1 succeeds; the total counts every published post; the posts are the page's window of the published posts newest first, as many as `Query.PageLength` says: `limit` of them, fewer on the last page, none past it |
| Blog.BlogService.FindAllAdmin | backend/src/modules/blog/blog.service.ts:29-36 | refused exactly when the offset or the limit is negative; the total counts all posts; the page is the window of all posts, newest creation first, as many as `Query.PageLength` says |
| Blog.BlogService.FindBySlug | backend/src/modules/blog/blog.service.ts:38-42 | the post with that slug, drafts included; NotFound exactly when no post has it |
| Blog.BlogService.Search | backend/src/modules/blog/blog.service.ts:44-53 | published posts whose title or content contains the query, newest publication first: `min(20, matches)` of them, all of them when there are no more than 20, and no match left out was published later than one returned |
| Blog.BlogService.Create | backend/src/modules/blog/blog.service.ts:55-74 | the result is `CreateResult`; on success the row is appended, on error nothing changes; the table stays valid |
| Blog.BlogService.Update | backend/src/modules/blog/blog.service.ts:76-100 | the result is `UpdateResult`; on success only the addressed row is replaced, on error nothing changes; the table stays valid |
| Blog.BlogService.Remove | backend/src/modules/blog/blog.service.ts:102-106 | NotFound exactly for an unknown id, with nothing changed; otherwise exactly the post with that id is gone |
| Blog.UpdateKeepsValid | backend/src/modules/blog/blog.service.ts:76-100 | replacing a row under the update's guarantees keeps ids and slugs unique, and keeps published posts dated |
| Blog.AppendKeepsValid | backend/src/modules/blog/blog.service.ts:55-74 | appending a fresh, unused-slug row keeps the table valid |
| Blog.RemoveKeepsValid | backend/src/modules/blog/blog.service.ts:102-106 | deleting a row keeps the table valid |
| Blog.RemoveMembers | backend/src/modules/blog/blog.service.ts:105 | deleting a row removes exactly the rows with its id |
| Blog.RemoveKeepsOthers | backend/src/modules/blog/blog.service.ts:105 | every other post survives a delete |
| Newsletter.IndexOfEmail | backend/src/modules/newsletter/newsletter.service.ts:14 | the lookup by e-mail finds the first record with it, or reports that none has it; a missing e-mail adds no condition, so it finds the first record of any non-empty table |
| Newsletter.AfterSubscribe | backend/src/modules/newsletter/newsletter.service.ts:13-24 | an unknown e-mail gets one new active record; the one record the lookup found (with no e-mail, the first record) is reactivated in place; every other record is untouched, even one with the same e-mail |
| Newsletter.AfterUnsubscribe | backend/src/modules/newsletter/newsletter.service.ts:26-28 | every record the condition matches is stamped, which is every record when the e-mail is missing; nothing else changes, and an unknown e-mail changes nothing |
| Newsletter.SubscribeKeepsValid | backend/src/modules/newsletter/newsletter.service.ts:13-24 | subscribing never creates a second record for an e-mail |
| Newsletter.UnsubscribeKeepsValid | backend/src/modules/newsletter/newsletter.service.ts:26-28 | unsubscribing keeps e-mails and ids unique |
| Newsletter.SubscribedIsActive | backend/src/modules/newsletter/newsletter.service.ts:13-24 | after subscribing an e-mail, exactly one record holds it, and that record is active |
| Newsletter.ResubscribeReusesRecord | backend/src/modules/newsletter/newsletter.service.ts:18-28 | unsubscribe then subscribe reactivates the same record; the table keeps its size |
| Newsletter.NewsletterService.constructor | backend/src/modules/newsletter/newsletter.service.ts:8-11 | the service starts with no subscribers |
| Newsletter.NewsletterService.Subscribe | backend/src/modules/newsletter/newsletter.service.ts:13-24 | refused exactly when the matched record is active, or when no e-mail is given and the table is empty (a NOT NULL violation); for a given e-mail, refused exactly when an active record holds it; a refusal changes nothing; otherwise the table becomes `AfterSubscribe` and the returned record matches and is active |
| Newsletter.NewsletterService.Unsubscribe | backend/src/modules/newsletter/newsletter.service.ts:26-28 | never fails; the table becomes `AfterUnsubscribe` |
| Newsletter.NewsletterService.FindAll | backend/src/modules/newsletter/newsletter.service.ts:30-35 | every record, unsubscribed ones included, newest subscription first |
| CaseStudies.TitleText | backend/src/modules/case-studies/case-studies.service.ts:28 | `data.title \|\| ''` |
| CaseStudies.NullOnInsert | backend/src/modules/case-studies/entities/case-study.entity.ts:8-27 | an insert violates NOT NULL exactly when title, challenge, solution or results is missing or null |
| CaseStudies.NullOnUpdate | backend/src/modules/case-studies/entities/case-study.entity.ts:8-27 | an update violates NOT NULL exactly when it sets one of those columns, or the slug, to null |
| CaseStudies.NewCaseStudy | backend/src/modules/case-studies/case-studies.service.ts:27-31 | the slug always comes from the title (from `""` without one), overriding any given slug; the other columns come from the body |
| CaseStudies.WithDerivedSlug | backend/src/modules/case-studies/case-studies.service.ts:36-38 | a non-empty title overwrites the body's slug with the derived one; otherwise the body is unchanged |
| CaseStudies.Assign | backend/src/modules/case-studies/case-studies.service.ts:39 | present properties are copied; absent ones leave the row as it was |
| CaseStudies.IndexOfId | backend/src/modules/case-studies/case-studies.service.ts:34 | the lookup by id |
| CaseStudies.UpdatedSlug | backend/src/modules/case-studies/case-studies.service.ts:36-39 | after an update the slug is derived from a non-empty title, else the supplied slug, else the old one |
| CaseStudies.CaseStudiesService.constructor | backend/src/modules/case-studies/case-studies.service.ts:9-12 | the service starts with no case studies |
| CaseStudies.CaseStudiesService.FindAll | backend/src/modules/case-studies/case-studies.service.ts:14-19 | every case study, published or not, newest first |
| CaseStudies.CaseStudiesService.FindBySlug | backend/src/modules/case-studies/case-studies.service.ts:21-25 | the case study with that slug; NotFound exactly when none has it |
| CaseStudies.CaseStudiesService.Create | backend/src/modules/case-studies/case-studies.service.ts:27-31 | a null on a NOT NULL column or a taken slug is refused and changes nothing; in every other case the row `NewCaseStudy` builds is returned and appended |
| CaseStudies.CaseStudiesService.Update | backend/src/modules/case-studies/case-studies.service.ts:33-41 | NotFound for an unknown id; a null on a NOT NULL column is refused; otherwise the assigned row is refused exactly when another row holds its slug and returned otherwise; errors change nothing; success replaces only the addressed row |
| CaseStudies.CaseStudiesService.Remove | backend/src/modules/case-studies/case-studies.service.ts:43-47 | NotFound exactly for an unknown id, with nothing changed; otherwise exactly that row is gone |
| CaseStudies.RemoveKeepsValid | backend/src/modules/case-studies/case-studies.service.ts:46 | deleting a row keeps ids and slugs unique and removes exactly the rows with its id |
| Leads.ParseLeadStatus | backend/src/modules/leads/entities/lead.entity.ts:3-9 | the enum column accepts exactly the five status texts |
| Leads.NewLead | backend/src/modules/leads/leads.service.ts:14-17 | the saved lead carries the DTO's fields and the default status `new` |
| Leads.UpdateStatusResult | backend/src/modules/leads/leads.service.ts:28-33 | a missing status is a NOT NULL refusal on an existing lead; a text outside the enum is refused; otherwise an unknown id is a plain "Lead not found" error, and a known one gives the same lead with only its status changed |
| Leads.LeadsService.constructor | backend/src/modules/leads/leads.service.ts:9-12 | the service starts with no leads |
| Leads.LeadsService.Create | backend/src/modules/leads/leads.service.ts:14-17 | appends exactly one lead, with status `new` |
| Leads.LeadsService.FindAll | backend/src/modules/leads/leads.service.ts:19-26 | refused exactly when the offset or the limit is negative; the total counts all leads; the page is the window of the leads newest first, as many as `Query.PageLength` says |
| Leads.LeadsService.UpdateStatus | backend/src/modules/leads/leads.service.ts:28-33 | the result is `UpdateStatusResult`; a valid status replaces the status of the addressed lead; every other lead and field is unchanged, and errors change nothing |
| Seo.StaticEntries | backend/src/modules/seo/seo.service.ts:26-36 | the nine static pages, in order |
| Seo.PostEntries | backend/src/modules/seo/seo.service.ts:45-47 | one entry per post, in order |
| Seo.CaseStudyEntries | backend/src/modules/seo/seo.service.ts:49-51 | one entry per case study, in order |
| Seo.Entries | backend/src/modules/seo/seo.service.ts:16-51 | the sitemap has 9 + published posts + case studies entries |
| Seo.Element | backend/src/modules/seo/seo.service.ts:42 | an XML element is the opening tag, the text, then the closing tag, in that order and nothing else |
| Seo.ElementInjective | backend/src/modules/seo/seo.service.ts:42 | two elements with the same tag are equal only when their texts are: the text can be read back |
| Seo.Line | backend/src/modules/seo/seo.service.ts:42 | an indented line is `indent` spaces, the text, then a newline |
| Seo.RenderAllPrefix | backend/src/modules/seo/seo.service.ts:41-51 | rendering one more entry appends that entry's text |
| Seo.RenderAllAppend | backend/src/modules/seo/seo.service.ts:41-51 | rendering a concatenation is concatenating the renderings |
| Seo.StepRender | backend/src/modules/seo/seo.service.ts:41-51 | one loop turn extends the text by the next entry |
| Seo.AppendEntries | backend/src/modules/seo/seo.service.ts:41-51 | a `for … of` loop appends the rendering of all its entries, in order |
| Seo.GenerateSitemap | backend/src/modules/seo/seo.service.ts:16-55 | the string builder produces exactly the sitemap document |
| Seo.SitemapParts | backend/src/modules/seo/seo.service.ts:38-53 | the document is the header, the static, post and case-study entries, and the footer |
| Seo.SitemapFrame | backend/src/modules/seo/seo.service.ts:38-39 | the document starts with the XML declaration and the `urlset` of the 0.9 namespace, and ends with `</urlset>` |
| Seo.StaticPathsNotBlogPost | backend/src/modules/seo/seo.service.ts:26-36 | no static path is `/blog/<slug>` |
| Seo.StaticsNotBlogPost | backend/src/modules/seo/seo.service.ts:41-43 | no static entry is at a blog-post location |
| Seo.CaseStudiesNotBlogPost | backend/src/modules/seo/seo.service.ts:49-51 | no case-study entry is at a blog-post location |
| Seo.PostEntryAtBlog | backend/src/modules/seo/seo.service.ts:45-47 | a post entry is at `/blog/<slug>` exactly when a listed post has that slug |
| Seo.BlogEntryIffPublished | backend/src/modules/seo/seo.service.ts:17-20 | the sitemap has an entry at `/blog/<slug>` exactly when a published post has that slug; drafts never appear |
| Seo.StaticsWithoutLastmod | backend/src/modules/seo/seo.service.ts:42 | the nine static entries carry no `lastmod` |
| Seo.DynamicWithLastmod | backend/src/modules/seo/seo.service.ts:46-50 | every post and case-study entry carries a `lastmod` |
| Seo.RobotsTxt | backend/src/modules/seo/seo.service.ts:57-59 | the fixed prefix allowing every agent, then the base URL, then the `/sitemap.xml` suffix; the base URL can be read back from its place |
| Seo.RobotsTxtInjective | backend/src/modules/seo/seo.service.ts:57-59 | different base URLs give different robots texts |
| Analytics.OrNull | backend/src/modules/analytics/analytics.controller.ts:19-21 | `s \|\| null`: a missing or empty string becomes null |
| Analytics.PayloadOrNull | backend/src/modules/analytics/analytics.controller.ts:18 | `payload \|\| null`: a missing or falsy payload becomes null |
| Analytics.TrackedEvent | backend/src/modules/analytics/analytics.controller.ts:11-22 | without an event type the NOT NULL column refuses the row; otherwise the row holds the defaulted fields |
| Analytics.CountType | backend/src/modules/analytics/analytics.service.ts:31-32 | the count of a type is zero exactly when no event has it |
| Analytics.DistinctTypes | backend/src/modules/analytics/analytics.service.ts:32 | `GROUP BY` lists each present type exactly once |
| Analytics.GroupCounts | backend/src/modules/analytics/analytics.service.ts:28-33 | one row per present type, its count as decimal text |
| Analytics.CountsAddUp | backend/src/modules/analytics/analytics.service.ts:26-38 | the per-type counts add up to the number of events |
| Analytics.SumAtCounts | backend/src/modules/analytics/analytics.service.ts:35-38 | a map holding each type's count sums like the counts |
| Analytics.FilterCount | backend/src/modules/analytics/analytics.service.ts:20 | the `where: { eventType }` filter keeps as many events as the type's count |
| Analytics.EventsOfType | backend/src/modules/analytics/analytics.service.ts:20 | the events the condition selects: those of the given type, and every event when the type is missing (an undefined condition is left out of the query) |
| Analytics.AnalyticsService.constructor | backend/src/modules/analytics/analytics.service.ts:8-11 | the service starts with no events |
| Analytics.AnalyticsService.TrackEvent | backend/src/modules/analytics/analytics.service.ts:13-16 | appends the tracked event, or changes nothing when it is refused |
| Analytics.AnalyticsService.GetEventsByType | backend/src/modules/analytics/analytics.service.ts:18-24 | selected events only, newest first, `min(count, 100)` of them, where a missing type selects every event; no selected event left out is newer than one returned |
| Analytics.AnalyticsService.GetSummary | backend/src/modules/analytics/analytics.service.ts:26-41 | the total is the number of events; the map has a key exactly for each present type, holding its count; the counts sum to the total |
| Auth.ValidateUser | backend/src/modules/auth/auth.service.ts:22-34 | success returns a user with that e-mail whose hash matches the password; an unknown e-mail fails; every failure is the same `Invalid credentials` |
| Auth.ValidateUserIff | backend/src/modules/auth/auth.service.ts:22-34 | with unique e-mails, validation succeeds exactly when the password matches that user's hash |
| Auth.UnknownUserLooksLikeWrongPassword | backend/src/modules/auth/auth.service.ts:24-31 | an unknown e-mail and a wrong password give the same error |
| Auth.PayloadOf | backend/src/modules/auth/auth.service.ts:38-42 | the claims are the user's id, e-mail and role |
| Auth.Login | backend/src/modules/auth/auth.service.ts:36-47 | login fails exactly when validation does; otherwise it signs the validated user's claims |
| Auth.FindById | backend/src/modules/auth/auth.service.ts:49-51 | the user with that id, or none exactly when no user has it |
| Auth.ValidateToken | backend/src/modules/auth/jwt.strategy.ts:28-34 | a token is accepted exactly when its subject is still a user |
| Auth.LoginTokenIdentifiesUser | backend/src/modules/auth/jwt.strategy.ts:28-34 | the claims issued at login are accepted and identify the same user |
| Media.Extension | backend/src/modules/media/media.service.ts:17 | `split('.').pop()` is the text after the last dot, or the whole name without one |
| Media.LastPiece | backend/src/modules/media/media.service.ts:17 | the last piece of a split is what follows the last separator, or the whole text without one |
| Media.LastPieceWhole | backend/src/modules/media/media.service.ts:17 | a name without a dot is its own extension |
| Media.JoinLast | backend/src/modules/media/media.service.ts:17 | pieces without the separator, joined by it, end with the last piece after the last separator |
| Media.LastPieceUnique | backend/src/modules/media/media.service.ts:17 | that piece is unique |
| Media.StoredName | backend/src/modules/media/media.service.ts:18 | the stored name is the file id, a dot, then the upload's extension, and it keeps that extension |
| Media.StoredNameInjective | backend/src/modules/media/media.service.ts:18 | file ids of one length give distinct stored names whatever the uploads were called |
| Media.UploadUrl | backend/src/modules/media/media.service.ts:19 | the URL is the `/uploads/` prefix followed by the stored name |
| Media.NewAsset | backend/src/modules/media/media.service.ts:17-26 | the saved asset: stored name, URL, MIME type and size of the upload |
| Media.MediaService.constructor | backend/src/modules/media/media.service.ts:9-12 | the service starts with no assets |
| Media.MediaService.Upload | backend/src/modules/media/media.service.ts:14-29 | a request without a file fails with a TypeError and saves nothing; otherwise appends exactly the new asset and returns it |
| Media.MediaService.FindAll | backend/src/modules/media/media.service.ts:31-33 | every asset, newest upload first |
| Media.MediaService.Remove | backend/src/modules/media/media.service.ts:35-37 | exactly the assets with that id are gone; an unknown id changes nothing and is no error |
| Media.RemoveAtKeepsDistinct | backend/src/modules/media/media.service.ts:36 | deleting a row keeps ids unique and removes exactly the rows with its id |
| Seed.SeedReadingTimeAgrees | backend/scripts/seed-blog.ts:283-285 | the script's reading time equals the blog service's, and is at least 1 |
| Seed.IndexWhere | backend/scripts/seed-blog.ts:256 | `findOne({ where })` finds a row with the key, or none exactly when no row has it |
| Seed.EnsureAllPrefix | backend/scripts/seed-blog.ts:255-263 | the loop over one more definition is one more turn |
| Seed.EnsureAllGrows | backend/scripts/seed-blog.ts:255-263 | the find-or-create loop only appends rows |
| Seed.EnsureStepFacts | backend/scripts/seed-blog.ts:256-262 | one turn: a stopped loop stays stopped, the table only grows, and a turn that does not stop yields a row with the definition's slug |
| Seed.EnsureAllFound | backend/scripts/seed-blog.ts:255-263 | a completed loop found or made one row per definition, in order, each in the table with that slug |
| Seed.EnsureAllIndexed | backend/scripts/seed-blog.ts:255-263 | after a completed loop every definition's slug is found |
| Seed.EnsureAllNoop | backend/scripts/seed-blog.ts:255-263 | when every slug is already present the loop inserts nothing |
| Seed.EnsureAllStopped | backend/scripts/seed-blog.ts:258-259 | once an insert was refused, the rest of the loop changes nothing (the script has stopped) |
| Seed.ArticlePost | backend/scripts/seed-blog.ts:327-341 | each article becomes a published post dated now, with the script's reading time, its author, tags and categories |
| Seed.Pick | backend/scripts/seed-blog.ts:295-314 | the tags or categories at the article's positions, in that order |
| Seed.CreateArticles | backend/scripts/seed-blog.ts:318-345 | the article loop only appends posts |
| Seed.CreateStep | backend/scripts/seed-blog.ts:319-343 | one turn: an article whose slug is taken is skipped, otherwise its post is appended; afterwards its slug is taken |
| Seed.IndexWhereGrows | backend/scripts/seed-blog.ts:320 | a row found stays found when rows are appended |
| Seed.CreateArticlesCovers | backend/scripts/seed-blog.ts:318-345 | after the article loop every article's slug is taken |
| Seed.CreateArticlesPrefix | backend/scripts/seed-blog.ts:318-345 | the loop over one more article is one more turn |
| Seed.CreateArticlesNoop | backend/scripts/seed-blog.ts:318-345 | when every article's slug is taken no post is created |
| Seed.SeedAuthor | backend/scripts/seed-blog.ts:240-250 | the author is found by name or created once |
| Seed.RunOk | backend/scripts/seed-blog.ts:239-345 | a completed run is the author lookup, both loops without a refusal, then the article loop |
| Seed.RunLeavesRows | backend/scripts/seed-blog.ts:239-345 | a completed run leaves the author, every tag and category slug and every article slug in the tables |
| Seed.AuthorIndexed | backend/scripts/seed-blog.ts:240-250 | after the author lookup the author's name is found |
| Seed.RunNoop | backend/scripts/seed-blog.ts:239-345 | on tables that already hold everything, the script completes and changes nothing |
| Seed.SeedIdempotent | backend/scripts/seed-blog.ts:239-345 | running the script again after a completed run changes nothing: no second author, tag, category or post |
| Seed.SeedDatabase.constructor | backend/scripts/seed-blog.ts:225-236 | the database starts with the given tables |
| Seed.SeedDatabase.FindOrCreateAuthor | backend/scripts/seed-blog.ts:240-250 | the author table becomes `SeedAuthor`'s; nothing else changes |
| Seed.SeedDatabase.SeedTags | backend/scripts/seed-blog.ts:252-263 | the tag loop yields exactly `EnsureAll` over the four tags; nothing else changes |
| Seed.SeedDatabase.SeedCategories | backend/scripts/seed-blog.ts:265-280 | the category loop yields exactly `EnsureAll` over the three categories; nothing else changes |
| Seed.SeedDatabase.SeedArticles | backend/scripts/seed-blog.ts:318-345 | the post table becomes `CreateArticles`; nothing else changes |
| Seed.SeedDatabase.Seed | backend/scripts/seed-blog.ts:239-345 | the tables and the completion flag are exactly those of `SeedRun` |
| ApiClient.ApiBase | frontend/src/lib/api.ts:1 | the configured base URL when set and non-empty; otherwise `http://localhost:3001`; never empty |
| ApiClient.StripSlash | frontend/src/lib/api.ts:21 | `replace(/^\//, "")` removes at most one leading slash |
| ApiClient.RequestUrl | frontend/src/lib/api.ts:21 | the URL is the base, one slash, and the path without its leading slash |
| ApiClient.SlashOptional | frontend/src/lib/api.ts:21 | `path` and `/path` give the same URL |
| ApiClient.OnlyOneSlashRemoved | frontend/src/lib/api.ts:21 | a double leading slash keeps one |
| ApiClient.BearerHeader | frontend/src/lib/api.ts:54 | `Authorization: Bearer <token>` exactly when a non-empty token is stored |
| ApiClient.PublicHeaders | frontend/src/lib/api.ts:24-27 | JSON content type by default; the caller's headers win |
| ApiClient.AuthHeaders | frontend/src/lib/api.ts:52-56 | content type, bearer header when a token exists, and the caller's headers, which win |
| ApiClient.PublicRequest | frontend/src/lib/api.ts:21-28 | the public request: its URL, headers, method and body |
| ApiClient.AuthRequest | frontend/src/lib/api.ts:46-57 | the authenticated request: its URL, headers, method and body |
| ApiClient.UploadRequest | frontend/src/lib/api.ts:85-98 | a POST of the file as form field `file`, with no Content-Type header and a bearer header exactly when a token exists |
| ApiClient.ErrorMessage | frontend/src/lib/api.ts:31-32 | the body text when non-empty, else the status text |
| ApiClient.JsonBody | frontend/src/lib/api.ts:35 | `res.json()`: the value the body parses to, and a parse failure exactly when there is no body or it does not parse |
| ApiClient.PublicOutcome | frontend/src/lib/api.ts:17-36 | network error exactly when unreachable; `ApiError` exactly for a non-ok status, with the body or status text; an ok status, 204 included, gives the parsed body; never `undefined` |
| ApiClient.AuthOutcome | frontend/src/lib/api.ts:59-75 | 401 gives `ApiError(401, "Unauthorized")`; other non-ok statuses as the public helper; `undefined` exactly for 204; any other ok status gives the parsed body |
| ApiClient.UploadOutcome | frontend/src/lib/api.ts:100-113 | 401 gives `ApiError(401, "Unauthorized")`; other non-ok statuses carry the body or status text; an ok status gives the parsed body; never `undefined` |
| ApiClient.AuthAgreesWithPublic | frontend/src/lib/api.ts:59-75 | apart from 401 and 204, the two helpers classify a reply alike |
| ApiClient.UploadAgreesWithAuth | frontend/src/lib/api.ts:100-113 | apart from 204, upload and the authenticated helper classify a reply alike |
| ApiClient.PublicUnauthorizedKeepsBody | frontend/src/lib/api.ts:30-33 | the public helper reports a 401 with the server's body, not `Unauthorized` |
| ApiClient.NoContentOnlyAuth | frontend/src/lib/api.ts:73 | an empty 204 is `undefined` only for the authenticated helper; the others fail to parse it |
| ApiClient.NoTokenNoBearer | frontend/src/lib/api.ts:54 | without a token no bearer header is added |
| ApiClient.Session.constructor | frontend/src/lib/api.ts:46-47 | a session with the given browser flag, stored token and location |
| ApiClient.Session.FetchApi | frontend/src/lib/api.ts:17-36 | the outcome is the public classification of the server's reply; the session is untouched |
| ApiClient.Session.FetchApiAuth | frontend/src/lib/api.ts:42-76 | the outcome is the authenticated classification; in a browser a 401 clears the token and moves to `/admin/login`; otherwise nothing changes |
| ApiClient.Session.UploadFile | frontend/src/lib/api.ts:81-114 | the same for uploads |
| BlogPage.StaticPosts | frontend/src/app/blog/page.tsx:25-77 | five built-in posts carrying the given titles and excerpts |
| BlogPage.StaticPostsShape | frontend/src/app/blog/page.tsx:25-77 | only the first built-in post is featured, and all have the default author |
| BlogPage.ReadingLabel | frontend/src/app/blog/page.tsx:98 | the label ends in ` min read` after a non-empty number |
| BlogPage.DefaultReadingLabel | frontend/src/app/blog/page.tsx:98 | a missing or zero reading time reads `5 min read` |
| BlogPage.ReadingLabelRoundTrip | frontend/src/app/blog/page.tsx:98 | a positive reading time can be read back from its label |
| BlogPage.MapPost | frontend/src/app/blog/page.tsx:92-101 | each field with its default: empty excerpt, default author, publication or creation date, tag names, not featured |
| BlogPage.GetPosts | frontend/src/app/blog/page.tsx:81-107 | any failure gives the built-in posts; otherwise one mapped post per API post, in order, none featured |
| BlogPage.Split | frontend/src/app/blog/page.tsx:204-205 | the featured post exists exactly for a non-empty list and is the first, flagged; the rest follow |
| BlogPage.SplitReassembles | frontend/src/app/blog/page.tsx:204-205 | the featured post and the rest give back the list |
| BlogPage.ApiFeaturedIsFirst | frontend/src/app/blog/page.tsx:90-101 | from the API, the featured post is the first mapped post and the rest are not featured |
| CaseStudiesPage.Strs | frontend/src/app/case-studies/page.tsx:26-81 | strings as JSON strings, one for one |
| CaseStudiesPage.StaticCaseStudies | frontend/src/app/case-studies/page.tsx:26-81 | three built-in case studies with the given text, each with a metric and its label |
| CaseStudiesPage.DropEmpty | frontend/src/app/case-studies/page.tsx:101 | `filter(Boolean)` keeps exactly the non-empty strings |
| CaseStudiesPage.ResultLines | frontend/src/app/case-studies/page.tsx:101 | the lines are non-empty, hold no newline, and spell the text without its newlines |
| CaseStudiesPage.DropEmptyAppend | frontend/src/app/case-studies/page.tsx:101 | dropping empty strings works list by list: the survivors keep their order and multiplicity |
| CaseStudiesPage.ResultLinesAppend | frontend/src/app/case-studies/page.tsx:101 | the lines of two texts joined by a newline are the lines of the first followed by those of the second: none lost, merged, split or reordered |
| CaseStudiesPage.SingleLine | frontend/src/app/case-studies/page.tsx:101 | a text without newline is one line, or none when empty |
| CaseStudiesPage.Results | frontend/src/app/case-studies/page.tsx:100-102 | a string is split into lines, an array is kept, anything else is dropped |
| CaseStudiesPage.MapCaseStudy | frontend/src/app/case-studies/page.tsx:93-105 | each field with its default: `Enterprise Client`, `Technology`, empty texts, no metric |
| CaseStudiesPage.GetCaseStudies | frontend/src/app/case-studies/page.tsx:84-109 | any failure gives the built-in case studies; otherwise one mapped record per row, in order |
| CaseStudiesPage.MetricMeansFallback | frontend/src/app/case-studies/page.tsx:103-107 | a record shows a metric exactly when the API was not used |
| CaseStudiesPage.ConcatDropEmpty | frontend/src/app/case-studies/page.tsx:101 | dropping empty pieces does not change what they spell |
| CaseStudiesPage.ConcatSplit | frontend/src/app/case-studies/page.tsx:101 | the pieces of `split` spell the text without its separators |

## Left out

- Persistence, transactions and concurrency. Each service call is one atomic step on in-memory tables, so two concurrent requests racing on the same slug or e-mail are not modelled.
- Database tie order. `order: DESC` is a stable insertion sort, one of the orders the database may return; the database promises nothing for equal keys.
- ILIKE wildcards. A `%` or `_` inside a search query is treated as a literal character. Case folding covers ASCII letters only.
- `findByIds` order. The model returns the rows in table order; its contract speaks only of which rows.
- The `author` relation. The model keeps the `authorId` column only; the eager `author` join and the foreign key are not modelled.
- The newsletter's `where: { unsubscribedAt: undefined }` is modelled as adding no condition, as the ORM treats it. The case studies' `publishedAt: undefined` is treated the same way.
- The tag and category listings (`getAllTags`, `getAllCategories`) are not part of this model.
- `slugify`, bcrypt, JWT signing and verification, UUID generation, `toISOString` and the validation library's e-mail check are uninterpreted parameters. Token expiry and signatures are not modelled.
- Date values are abstract integers (`Timestamp`).
- Media files are never written to storage; only the asset row is modelled, as in the source.
- The seed script's console output, its database connection settings, and the text of its three articles. The article text is a parameter.
- The marketing copy of the built-in blog posts and case studies is a parameter `copy`. The slugs, dates, reading-time labels, tags, clients, industries and metrics are literal.
- Header names are compared case-sensitively. `fetch` treats them case-insensitively.
- Next.js's `next: { revalidate: 60 }` caching of the listing fetches.
- A `posts` field that is present but not an array. The model treats the body as carrying an array or nothing.
- `process.env` is read only as the optional `NEXT_PUBLIC_API_URL` value passed to `ApiClient.ApiBase`.
- `fetch` rejections other than an unreachable server, and a failing `res.text()`. These are a network error and an empty body.
- Seed.CreateArticles: its own contract states only that the post table grows by appending. What the loop achieves is stated by Seed.CreateArticlesCovers and Seed.CreateArticlesNoop.
- Seed.SeedDatabase.Seed: the script stops at the first refused insert. The model reports that as `ok == false` instead of an uncaught exception and process exit.
- CaseStudies.CaseStudiesService.Create: a body carrying `id` makes `save()` update the row with that id instead of inserting, and a body carrying `createdAt` sets that column. The model's input has neither property and always inserts under the generated id.
- CaseStudies.CaseStudiesService.Update: `Object.assign` also copies a body's `id` or `createdAt`, so `save()` may then write another row or a new creation time. The model keeps both columns of the addressed row.
- CaseStudies.TitleText: a title that is not a string makes `slugify` throw, an internal server error. Every body property is typed by its column here.
- Ids are compared as plain strings. The database's `uuid` columns compare case-insensitively and refuse a malformed id with a database error; the model answers NotFound for an unknown id, or changes nothing in `Media.MediaService.Remove`.
- Query.Skipped: `page` and `limit` are integers. A query string such as `?page=abc` gives `NaN`, which the ORM refuses; a fractional page is not modelled either.
- Analytics.AnalyticsService.GetSummary: an event type named `__proto__` is assigned through the object's prototype setter, so the source's result has no entry for it; the model gives every present type an entry.
- With no condition (a missing e-mail, a missing event type), the "first row" found is the first row in table order; the database gives no order without `ORDER BY`.
- Common.Json: numbers are integers. A fractional number in a request body or an analytics payload cannot be represented.
- The category entity file is not part of this model. Like the tag table, the category table is taken to have unique `name` and `slug` columns, so the seed script's insert of a category whose name is taken is refused.
- Seed.SeedRun: the three articles share one `now`. The script reads the clock once per article with `new Date()`.
