# RancangDidik dashboard core, modelled in Dafny

RancangDidik is a school-administration dashboard for RPP documents
(*Rencana Pelaksanaan Pembelajaran*, lesson plans) and for products. This project
models the small rules under its pages and route handlers and proves what they
promise:

- **Breadcrumbs** (`Breadcrumbs`). A route path gets its route-table entry when it
  has one. Otherwise it gets one crumb per non-empty `/` segment. Each crumb links
  to the path up to its segment and is titled by the segment with the first letter
  in upper case.
- **List requests for documents and products** (`DocumentListing`,
  `DocumentsApi`, `DocumentsRoute`, `DocumentsFlow` and the `Product…`
  counterparts). These are three layers:
  - The listing page builds filters from its query values.
  - The client fills in defaults and joins lists with `.`.
  - The route handler splits on `.`, drops empty parts, builds its `where`
    object step by step, counts the matches and returns the page
    `[offset, offset + limit)` of the matches, newest first.

  The store is a sequence of records ordered newest first. The `where` object is a
  predicate over records.
- **Create requests** (`DocumentsRoute.Create`, `ProductsRoute.Create`). These check
  required fields with JavaScript truthiness, so a product price of `0` counts as
  missing. They also supply the default attachment or photo URL.
- **Pagination arithmetic** (`Paging`, `DocumentTable`). The offset is
  `(page - 1) * limit`, the store's skip/take is a window, and the table's page
  count is `Math.ceil(totalItems / pageSize)`.
- **API URLs** (`ApiConfig`). An optional base URL goes in front of each endpoint.
- **In-memory searches** (`RppTable`, `Messages`). These are case-insensitive
  substring filters over fixed sample lists. The messages page keeps its search
  box and selected message in a class with two state cells.
- **Forms**:
  - `RppCreate` models the RPP create page as a class. It holds the form record,
    updated one field at a time, a required-field guard and the loading flag.
  - `DocumentForm` models the document form's schema, its default values and
    its choice between update and create.

Shared pieces:
- `Text` models JavaScript `split`, `join`, `includes` and ASCII case folding.
- `Seqs` models `Array.prototype.filter`.
- `Decimal` models `Number.prototype.toString`.
- `Wrappers` holds the `Option` type.

Facts about the code worth knowing when reading the model:
- The `Document` type and `POST /api/documents` store five fields: subject,
  teacher name, phase, academic year and attachment URL. The RPP create page
  also sends a semester, an assessment type and a session count, and the route
  ignores them.
- The route stores `''` as the attachment URL when none is given.
- The route does not check `page >= 1`. With a positive limit, a page of 0 or
  less gives a negative offset, the store then fails, and the model reports
  this as the 500 response. With a limit of 0 the offset is 0 and the response
  is a 200 with an empty page.

## Model

| member | source | states |
|---|---|---|
| Breadcrumbs.Breadcrumbs | src/hooks/use-breadcrumbs.tsx:59-80 | definition of `useBreadcrumbs`; its properties are the rows `Breadcrumbs.MappedPathUsesTable` to `Breadcrumbs.RootHasNoCrumbs` |
| Breadcrumbs.MappedPathUsesTable | src/hooks/use-breadcrumbs.tsx:64-66 | a path that is a key of the route table gets exactly its table entry |
| Breadcrumbs.Capitalize | src/hooks/use-breadcrumbs.tsx:73 | definition of `charAt(0).toUpperCase() + slice(1)`; its property is the row `Breadcrumbs.UnmappedPathHasOneCrumbPerSegment` |
| Breadcrumbs.UnmappedPathHasOneCrumbPerSegment | src/hooks/use-breadcrumbs.tsx:69-76 | an unmapped path gets one crumb per non-empty segment, each titled by its segment with only the first letter upper-cased |
| Breadcrumbs.DerivedLinksExtend | src/hooks/use-breadcrumbs.tsx:71 | each derived link is the previous link followed by `/` and the next segment |
| Breadcrumbs.LastDerivedLinkIsNormalisedPath | src/hooks/use-breadcrumbs.tsx:69-71 | the last derived link is `/` followed by the non-empty segments joined with `/` |
| Breadcrumbs.DerivedLinkSegments | src/hooks/use-breadcrumbs.tsx:69-71 | following crumb i's link gives the path's first i+1 segments back |
| Breadcrumbs.DoubledSlashIgnored | src/hooks/use-breadcrumbs.tsx:69 | a doubled `/` inside an unmapped path yields the same crumbs as a single one |
| Breadcrumbs.TrailingSlashIgnored | src/hooks/use-breadcrumbs.tsx:69 | a trailing `/` on an unmapped path yields the same crumbs |
| Breadcrumbs.RootHasNoCrumbs | src/hooks/use-breadcrumbs.tsx:64-76 | `/` is unmapped and yields no crumbs |
| Breadcrumbs.RouteMappingWellFormed | src/hooks/use-breadcrumbs.tsx:13-55 | every table entry starts at the Dashboard crumb and ends at a crumb linking to its own key |
| Text.Split | src/features/documents/components/document-listing.tsx:21-22 | `split` never returns an empty list and no part contains the separator |
| Text.SplitNonEmpty | src/app/api/documents/route.ts:11-14 | `split(...).filter(Boolean)` keeps only non-empty, separator-free parts |
| Text.SplitNonEmptyMembership | src/app/api/documents/route.ts:11-14 | a part survives `filter(Boolean)` exactly when `split` produced it and it is not empty |
| Text.JoinSplit | src/lib/api/documents.ts:57-58 | joining the parts of a split with the same separator gives the original string back |
| Text.JoinThenSplitNonEmpty | src/app/api/documents/route.ts:11-14 | for non-empty, separator-free parts, split-and-drop-empties recovers a joined list exactly |
| Text.Join | src/lib/api/documents.ts:57-58 | definition of `join('.')`; its properties are the rows `Text.JoinSplit` and `Text.JoinThenSplitNonEmpty` |
| Text.ContainsIgnoreCase | src/app/api/documents/route.ts:22-27 | definition of `contains` with `mode: 'insensitive'`; its properties are the rows `Text.ContainsIff`, `DocumentsRoute.SearchFindsSubstring` and `RppTable.QuerySpansFields` |
| Text.ContainsIff | src/app/api/documents/route.ts:21-28 | the substring test holds exactly when the text occurs at some position |
| Seqs.Filter | src/components/rpp/RPPTable.tsx:49-53 | `Array.prototype.filter`: every kept element passes the test and comes from the input; its properties are the rows `Seqs.FilterMembership`, `RppTable.FilterRowsIsStable` and `Messages.EmptyQueryKeepsAll` |
| Seqs.FilterMembership | src/components/rpp/RPPTable.tsx:49 | an element is kept exactly when it is in the input and passes the test |
| Paging.Offset | src/app/api/documents/route.ts:16 | definition of `(page - 1) * limit`; its properties are the rows `Paging.OffsetIsWholePages`, `Paging.OffsetNextPage` and `Paging.PagesArePrefix` |
| Paging.OffsetIsWholePages | src/app/api/documents/route.ts:16 | from page 1 and limit 0 on, the offset is non-negative and exactly `page - 1` whole pages |
| Paging.OffsetNextPage | src/app/api/documents/route.ts:16 | consecutive pages start one page size apart |
| Paging.Window | src/app/api/documents/route.ts:42-47 | skip/take returns `min(take, max(0, n - skip))` records, those at positions skip, skip+1, ... |
| Paging.PagesArePrefix | src/app/api/documents/route.ts:42-47 | the first k pages read in order are the first `k * limit` matches: no overlap, no gap |
| DocumentTable.PageSize | src/features/documents/components/document-tables/index.tsx:20 | the page size is `perPage`, or 10 when it is absent |
| DocumentTable.PageCount | src/features/documents/components/document-tables/index.tsx:22 | definition of `Math.ceil(totalItems / pageSize)`; its properties are the rows `DocumentTable.PageCountIsCeiling`, `DocumentTable.PageCountMonotone`, `DocumentTable.PagesCoverAll` and `DocumentTable.DefaultPageCount` |
| DocumentTable.PageCountIsCeiling | src/features/documents/components/document-tables/index.tsx:22 | for a positive page size the count is the least number of pages holding every item, and 0 for no items |
| DocumentTable.PageCountMonotone | src/features/documents/components/document-tables/index.tsx:22 | more items never give fewer pages |
| DocumentTable.PagesCoverAll | src/features/documents/components/document-tables/index.tsx:22 | the counted pages together show every item exactly once |
| DocumentTable.DefaultPageCount | src/features/documents/components/document-tables/index.tsx:20-22 | with no `perPage` the count is the ceiling of the items over 10 |
| ApiConfig.BaseUrl | src/lib/config/api.ts:5 | definition of the base URL: the environment variable `NEXT_PUBLIC_API_BASE_URL`, or `''` when it is absent or empty; its property is the row `ApiConfig.RelativeWithoutBase` |
| ApiConfig.GetUrl | src/lib/config/api.ts:15-18 | an empty base URL leaves the endpoint unchanged; otherwise the base is the prefix; the result always ends with the endpoint |
| ApiConfig.CreateApiUrl | src/lib/config/api.ts:22-24 | `createApiUrl` equals `getUrl` on every endpoint |
| ApiConfig.Urls | src/lib/config/api.ts:27-30 | the documents and employees URLs are `getUrl` of their endpoints |
| ApiConfig.RelativeWithoutBase | src/lib/config/api.ts:5-30 | with the environment variable absent or empty, the URLs are the bare endpoint paths |
| ApiConfig.BaseThenEndpoint | src/lib/config/api.ts:15-18 | with a non-empty base URL, the URL is the base followed by the endpoint |
| DocumentsApi.GetDocumentsQuery | src/lib/api/documents.ts:45-59 | all five keys are always sent; omitted filters become page 1, limit 10, empty search and `""` for the lists |
| DocumentsApi.GetDocument | src/lib/api/documents.ts:71-127 | the document is returned exactly when the fetch succeeded and the body holds one; a failed fetch and a missing document are distinct errors |
| DocumentListing.ListingFilters | src/features/documents/components/document-listing.tsx:17-23 | page and limit always; `search` exactly when the name is non-empty; the lists exactly when non-empty, made of parts free of `.` that re-join to the raw value, which fixes them as the `split('.')` of the raw value with empty parts kept |
| DocumentListing.ListingTable | src/features/documents/components/document-listing.tsx:25-34 | the table receives the response's documents and its reported total |
| DocumentListing.ListingSendsRawLists | src/features/documents/components/document-listing.tsx:17-25 | the raw `subject` and `phase` values reach the query string unchanged, and `""` when absent |
| DocumentListing.ListingKeepsEmptyParts | src/features/documents/components/document-listing.tsx:21 | the listing does not drop empty parts: `a..b` gives three subjects |
| DocumentsRoute.DecodeList | src/app/api/documents/route.ts:11-14 | an absent list decodes to no values, a present one to its non-empty `.`-separated parts |
| DocumentsRoute.DecodeQuery | src/app/api/documents/route.ts:8-14 | a given page, limit and search pass through, with page 1, limit 10 and empty search when absent; the lists are the `DecodeList` of their raw values, so non-empty, `.`-free parts |
| DocumentsRoute.Matches | src/app/api/documents/route.ts:19-36 | definition of what a list request asks of a record; its properties are the rows `DocumentsRoute.BuildWhere`, `DocumentsRoute.MatchingMembership` and `DocumentsRoute.EmptyFiltersMatchAll` |
| DocumentsRoute.BuildWhere | src/app/api/documents/route.ts:19-36 | each `where` field is set exactly when its condition is, and a record satisfies the `where` object exactly when it matches the request |
| DocumentsRoute.List | src/app/api/documents/route.ts:5-65 | a page is returned exactly when offset and limit are non-negative; the total counts all matches, and the documents are the window of the matches at the offset |
| DocumentsRoute.EmptyFiltersMatchAll | src/app/api/documents/route.ts:21-36 | no search and empty lists match the whole store, in order |
| DocumentsRoute.MatchingMembership | src/app/api/documents/route.ts:21-36 | a record is listed exactly when it contains the search text in one of its four fields and its subject and phase are in the non-empty lists |
| DocumentsRoute.SearchFindsSubstring | src/app/api/documents/route.ts:21-28 | a search text that occurs in any searched field once both are lower-cased (for example `MATE` in `Matematika`) finds the record |
| DocumentsRoute.PageSize | src/app/api/documents/route.ts:39-47 | page P of size L holds `min(L, max(0, N - (P-1)L))` records |
| DocumentsRoute.TotalIgnoresPaging | src/app/api/documents/route.ts:39 | the total depends on the filters only, not on page or limit |
| DocumentsRoute.Create | src/app/api/documents/route.ts:68-98 | 400 with the store unchanged exactly when a required field is missing or empty; otherwise 201, the record stores the given fields, with `''` for a missing or empty attachment URL |
| DocumentsRoute.CreatedIsListedFirst | src/app/api/documents/route.ts:42-47 | after a create, a list sees the new record first when it matches, then the old matches in their old order |
| DocumentsFlow.ClientRouteRoundTrip | src/app/api/documents/route.ts:8-14 | for non-empty, `.`-free subjects and phases, the route decodes exactly the filters the client was given, with the client's defaults |
| DocumentsFlow.ListingToRoute | src/features/documents/components/document-listing.tsx:17-25 | the route filters on the non-empty `.`-parts of the listing's raw `subject` and `phase` |
| DocumentsFlow.NoFiltersListsEverything | src/lib/api/documents.ts:42-59 | with no filters the route lists the whole store, page 1, ten per page |
| ProductsApi.GetProductsQuery | src/lib/api/products.ts:43-50 | all four keys are always sent; omitted filters become page 1, limit 10, empty search and `""` for categories |
| ProductListing.ListingFilters | src/features/products/components/product-listing.tsx:16-21 | page and limit always; `search` exactly when the name is non-empty; `categories` exactly when non-empty, made of parts free of `.` that re-join to the raw value, which fixes it as the `split('.')` of the raw value |
| ProductListing.ListingTable | src/features/products/components/product-listing.tsx:23-33 | the table receives the response's products and its reported total |
| ProductListing.ListingSendsRawCategories | src/features/products/components/product-listing.tsx:16-23 | the raw `category` value reaches the query string unchanged, and `""` when absent |
| ProductsRoute.DecodeQuery | src/app/api/products/route.ts:8-12 | a given page, limit and search pass through, with page 1, limit 10 and empty search when absent; categories are the non-empty `.`-parts, none when absent |
| ProductsRoute.Matches | src/app/api/products/route.ts:17-29 | definition of what a list request asks of a product; its properties are the rows `ProductsRoute.BuildWhere`, `ProductsRoute.MatchingMembership` and `ProductsRoute.EmptyFiltersMatchAll` |
| ProductsRoute.BuildWhere | src/app/api/products/route.ts:17-29 | each `where` field is set exactly when its condition is, and a product satisfies the `where` object exactly when it matches the request |
| ProductsRoute.List | src/app/api/products/route.ts:5-58 | a page is returned exactly when offset and limit are non-negative; the total counts all matches, and the products are the window at the offset |
| ProductsRoute.MatchingMembership | src/app/api/products/route.ts:19-29 | a product is listed exactly when name, description or category contains the search and its category is in the non-empty list |
| ProductsRoute.EmptyFiltersMatchAll | src/app/api/products/route.ts:19-29 | no search and no categories match the whole store, in order |
| ProductsRoute.Create | src/app/api/products/route.ts:61-91 | 400 with the store unchanged exactly when name, description, price or category is missing or falsy; otherwise 201, with `null` for a missing or empty photo URL |
| ProductsRoute.ZeroPriceRejected | src/app/api/products/route.ts:67-72 | a price of 0 is refused as a missing field |
| ProductsFlow.ClientRouteRoundTrip | src/app/api/products/route.ts:8-12 | for non-empty, `.`-free categories, the route decodes exactly the filters the client was given |
| ProductsFlow.ListingToRoute | src/features/products/components/product-listing.tsx:16-23 | the route filters on the non-empty `.`-parts of the listing's raw `category` |
| RppTable.FilterRows | src/components/rpp/RPPTable.tsx:49-53 | definition of the `filter` over the rows with the row search; its properties are the rows `RppTable.FilterRowsMembership`, `RppTable.EmptyQueryShowsAll` and `RppTable.FilterRowsIsStable` |
| RppTable.FilteredData | src/components/rpp/RPPTable.tsx:49-53 | definition of `filteredData`: `FilterRows` applied to the sample rows; its properties are the rows `RppTable.FilterRowsMembership` and `RppTable.FirstRowFoundAcrossFields` |
| RppTable.FilterRowsMembership | src/components/rpp/RPPTable.tsx:49-53 | a row is kept exactly when `subject teacher year` contains the query, ignoring case |
| RppTable.EmptyQueryShowsAll | src/components/rpp/RPPTable.tsx:49-53 | an empty query shows every row |
| RppTable.FilterRowsIsStable | src/components/rpp/RPPTable.tsx:49 | the kept rows keep their order, and searching them again changes nothing |
| RppTable.PhaseAndDateNotSearched | src/components/rpp/RPPTable.tsx:50 | phase and date play no part in the search |
| RppTable.QuerySpansFields | src/components/rpp/RPPTable.tsx:50 | a query running across the space between subject and teacher finds a row that no single field matches |
| RppTable.FirstRowFoundAcrossFields | src/components/rpp/RPPTable.tsx:10-53 | "Matematika James Mullican" finds the first sample row, although its subject, its teacher and its year each do not contain it |
| Messages.FilterMessages | src/app/dashboard/messages/page.tsx:82-85 | definition of the `filter` on sender or subject; its properties are the rows `Messages.FilterMessagesMembership`, `Messages.EmptyQueryKeepsAll` and `Messages.PreviewNotSearched` |
| Messages.FilteredMessages | src/app/dashboard/messages/page.tsx:82-85 | definition of `filteredMessages`: `FilterMessages` applied to the inbox; its properties are the rows `Messages.FilterMessagesMembership` and `Messages.ClickedMessageIsShown` |
| Messages.FilterMessagesMembership | src/app/dashboard/messages/page.tsx:82-85 | a message is kept exactly when its sender or subject contains the query, ignoring case |
| Messages.EmptyQueryKeepsAll | src/app/dashboard/messages/page.tsx:82-85 | an empty query keeps every message in the original order |
| Messages.PreviewNotSearched | src/app/dashboard/messages/page.tsx:82-85 | the preview plays no part in the search |
| Messages.TypeColor | src/app/dashboard/messages/page.tsx:65-76 | definition of `getTypeColor`; its properties are the row `Messages.TypeColorsDistinct` |
| Messages.TypeColorsDistinct | src/app/dashboard/messages/page.tsx:65-76 | student, colleague and parent get three different badges, and exactly the other types get the grey default |
| Messages.FindById | src/app/dashboard/messages/page.tsx:179 | the lookup returns the first message with that id, or nothing when no message has it |
| Messages.FindOwnId | src/app/dashboard/messages/page.tsx:179-201 | with unique ids, looking up a message's own id returns that message |
| Messages.KeptMessageFoundById | src/app/dashboard/messages/page.tsx:82-201 | in a list with unique ids, the id of any message the search keeps looks up exactly that message |
| Messages.InboxIdsUnique | src/app/dashboard/messages/page.tsx:18-63 | the inbox ids are unique and non-zero |
| Messages.ClickedMessageIsShown | src/app/dashboard/messages/page.tsx:119-201 | whatever the query, the id of a listed message looks up exactly that message |
| Messages.MessagesPage.constructor | src/app/dashboard/messages/page.tsx:18-80 | the page starts over the inbox, whose ids are unique and non-zero, with an empty query and nothing selected |
| Messages.MessagesPage.OnSearchChange | src/app/dashboard/messages/page.tsx:112 | typing replaces the query and keeps the selection |
| Messages.MessagesPage.Shown | src/app/dashboard/messages/page.tsx:173-179 | definition of the reading pane's lookup: nothing while no id is selected or the selected id is the falsy 0, otherwise `find` by the selected id; its property is the row `Messages.MessagesPage.OnMessageClick` |
| Messages.MessagesPage.OnMessageClick | src/app/dashboard/messages/page.tsx:127 | clicking a listed message selects its id and shows exactly that message |
| Decimal.Show | src/app/dashboard/rpp/create/page.tsx:208 | a number's string is one or more digits, without a leading zero, of one or two digits below 10 or 100 |
| Decimal.ReadShow | src/app/dashboard/rpp/create/page.tsx:208 | reading a number's decimal string gives the number back |
| RppCreate.Set | src/app/dashboard/rpp/create/page.tsx:34-36 | the named field takes the value and every other field keeps its own |
| RppCreate.SetLaws | src/app/dashboard/rpp/create/page.tsx:34-36 | writing a field's own value changes nothing, and a second write to a field overrides the first |
| RppCreate.SetCommutes | src/app/dashboard/rpp/create/page.tsx:34-36 | writes to two different fields commute |
| RppCreate.InitialFormValues | src/app/dashboard/rpp/create/page.tsx:24-31 | the initial form is empty except for `sessionCount = "12"` |
| RppCreate.MissingRequired | src/app/dashboard/rpp/create/page.tsx:41 | definition of the submit guard; its properties are the rows `RppCreate.MissingRequiredIff`, `RppCreate.OptionalFieldsNotRequired` and `RppCreate.CreateRppPage.HandleSubmit` |
| RppCreate.MissingRequiredIff | src/app/dashboard/rpp/create/page.tsx:41-44 | submission is refused exactly when one of the six required fields is empty |
| RppCreate.OptionalFieldsNotRequired | src/app/dashboard/rpp/create/page.tsx:41 | attachment URL and session count do not affect the guard |
| RppCreate.SliderText | src/app/dashboard/rpp/create/page.tsx:203-208 | a slider value in [6, 24] is stored as one or two digits without a leading zero that read back as the value, which is its `toString()` |
| RppCreate.GuardedFormIsAccepted | src/app/dashboard/rpp/create/page.tsx:41-48 | a form that passes the page's guard passes the route's check, and the route stores its fields |
| RppCreate.CreateRppPage.constructor | src/app/dashboard/rpp/create/page.tsx:18-32 | the page starts with the initial form and not loading |
| RppCreate.CreateRppPage.HandleInputChange | src/app/dashboard/rpp/create/page.tsx:34-36 | the form becomes the old form with that one field set |
| RppCreate.CreateRppPage.OnSessionCountChange | src/app/dashboard/rpp/create/page.tsx:203-208 | the slider stores the decimal string of its value as the session count |
| RppCreate.CreateRppPage.OnFileChange | src/app/dashboard/rpp/create/page.tsx:187-193 | a chosen file's URL becomes the attachment URL; no file changes nothing |
| RppCreate.CreateRppPage.HandleSubmit | src/app/dashboard/rpp/create/page.tsx:38-57 | refused with no call exactly when a required field is empty; otherwise the form is sent, loading is true while pending and false after success or failure |
| DocumentForm.OnlyFirstFileChecked | src/features/documents/components/document-form.tsx:40-54 | the attachment checks look at the first file only |
| DocumentForm.SchemaValid | src/features/documents/components/document-form.tsx:39-67 | definition of `formSchema`; its properties are the rows `DocumentForm.OnlyFirstFileChecked`, `DocumentForm.SingleFileIff`, `DocumentForm.NewFormIsInvalid` and `DocumentForm.EditedDefaultsValidIff` |
| DocumentForm.SingleFileIff | src/features/documents/components/document-form.tsx:31-54 | a file passes exactly when it is at most 5,000,000 bytes and of one of the four accepted types |
| DocumentForm.SchemaStricterThanUploader | src/features/documents/components/document-form.tsx:31-148 | the schema's bound is below the uploader's 5 MiB: a 5,000,001-byte PDF passes the uploader and fails the schema |
| DocumentForm.DefaultValues | src/features/documents/components/document-form.tsx:80-85 | the record's four fields when editing, empty strings otherwise |
| DocumentForm.NewFormIsInvalid | src/features/documents/components/document-form.tsx:55-85 | an untouched new form fails the schema |
| DocumentForm.EditedDefaultsValidIff | src/features/documents/components/document-form.tsx:55-85 | an edited record's own values pass exactly when subject and teacher have 2 characters and phase and year 1 |
| DocumentForm.PlaceholderUrl | src/features/documents/components/document-form.tsx:103 | the sample URL is never empty |
| DocumentForm.Call | src/features/documents/components/document-form.tsx:96-112 | update with the record's id exactly when editing, create otherwise; the values as entered; an existing non-empty attachment URL kept, the sample URL otherwise |
| DocumentForm.CallHasAttachmentUrl | src/features/documents/components/document-form.tsx:101-103 | every call carries a non-empty attachment URL |
| DocumentForm.ValidCreateIsAccepted | src/features/documents/components/document-form.tsx:96-110 | a valid new document passes the route's check and is stored exactly as entered with the sample URL |
| DocumentForm.DocumentFormPage.constructor | src/features/documents/components/document-form.tsx:77-78 | the form starts not loading, editing exactly when a record is given |
| DocumentForm.DocumentFormPage.Submit | src/features/documents/components/document-form.tsx:92-124 | values failing the schema make no call; otherwise the update-or-create call is made with loading raised, and loading is lowered after success or failure |

## Left out

- Network and database: `fetch`, response status, JSON bodies, `NextResponse` and the Prisma calls are not modelled. The store is a sequence ordered newest first, and the outcome of a call is a parameter. `createDocument`, `updateDocument`, `deleteDocument`, `getDocumentById` and `getProductById` are plain fetch wrappers and are not modelled beyond the failure case of `DocumentsApi.GetDocument`.
- DocumentsRoute.List: the store's own handling of a negative `skip` or `take` is not modelled. Such a request is reported as the 500 response.
- ProductsRoute.List: the same as `DocumentsRoute.List` for a negative `skip` or `take`.
- Number parsing: `parseInt`, `parseFloat` and `Number()` are not modelled. Page, limit and ids are integers, and a `NaN` page or limit is not represented.
- ProductsRoute.Create: the price is taken as an already-parsed number. A price sent as a string, with its own truthiness and `parseFloat`, is not modelled.
- Letter case: `toLowerCase`, `toUpperCase` and the store's case-insensitive `contains` are modelled as ASCII case folding. Unicode case rules are not modelled.
- Text length: strings are sequences of characters. Zod's `min` and `charAt` count UTF-16 code units, which differs only for characters outside the basic plane.
- Randomness: `Math.random()` in the document form is the `pick` parameter. The browser's `URL.createObjectURL` in the RPP create page is the `objectUrl` parameter.
- Timestamps: `created_at`, `updated_at` and the response `time` are replaced by the store's order.
- Presentation: JSX, toasts, router navigation, avatars, message times, unread dots and disabled buttons are not modelled.
- Library internals: the search-parameter cache (`src/lib/searchparams`) is not part of this model, and the listing pages take its values as given. The `perPage` parsing in nuqs is not modelled either: `DocumentTable.PageSize` takes an optional integer. Zod and react-hook-form are represented only by the rule that invalid values never reach `onSubmit`. The file uploader's own checks are represented only by its size bound.
- Select options: the RPP create page and the document form offer fixed choices for phase, semester, year and assessment. The model accepts any string, as `handleInputChange` and the schema do.
- Route-table lookup: `routeMapping[pathname]` on inherited object keys such as `constructor` is not modelled, because route paths begin with `/`. The lookup is map membership.
- Concurrency: React state batching and a second submit while one is pending are not modelled. Each handler runs to completion.
- PDF generation, the `[id]` routes, the landing pages, `getStatusColor` and `getPhaseColor` are outside the modelled core.
