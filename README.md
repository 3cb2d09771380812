# BeautyFind, modelled in Dafny

BeautyFind is a beauty-product discovery site. This project models three parts of it and proves properties about each:

- **The product catalog and its queries (`ProductManager`).** There are 12 seeded products. The queries filter by category, brand, price range and search text, then sort by one of five orders and paginate. Other queries look products up by id, find similar, trending, sale, category and brand lists, compare retailer prices, and accept a product URL for submission.
- **The sign-in state machine (`AuthManager`).** The current user and an authenticated flag are kept in step with a `localStorage`-like key/value store. Sign-in by email or provider, sign-up, sign-out, profile and preference updates, account deletion, data sync and export, password reset, and the guest-interaction counter that prompts anonymous users to sign up are all covered.
- **The moderation queue (`AdminDashboard`).** Submitted products wait in a pending list. Approving or rejecting one removes it in place (find the index, then splice), the sidebar badge shows how many remain, and the categories page shows a product count per category.

Files:

- `wrappers.dfy`: `Option`.
- `text.dfy`: the JavaScript string operations the code relies on: `\s`, ASCII case mapping, `includes`, `trim`, `split`/`join`, whitespace to `-`, `parseInt`/`Number` of integers, and number-to-string.
- `seqs.dfy`: `Array.filter`, `Array.slice`, pages, and a stable sort by a real-valued key.
- `catalog.dfy`: the product record and the seed data.
- `products.dfy`: the `ProductManager` queries, as functions plus one method.
- `session.dfy`: the `AuthManager` operations as functions on a state value, with the lemmas about them.
- `auth.dfy`: `class AuthManager`. Each method performs the source's steps on the object's fields and is proved to end in the state that the matching `Session` function gives.
- `admin.dfy`: `class AdminDashboard` together with the pending-list and category-count functions.

Modelling choices:

- **Catalog as a parameter.** Every `ProductManager` query builds a fresh manager whose product list is the seed. In the model that list is a `catalog` parameter, so each property holds for any catalog.
- **Numbers.**
  - Prices and offer prices are whole dollars in the data, so they are integers.
  - Ratings are stored in tenths.
  - `dateAdded` is a `yyyymmdd` integer, which preserves the order the comparator uses.
- **Sorting.** `Array.prototype.sort` is modelled as a stable insertion sort on a `real` key. The comparator in the source is always a difference of keys, and ES2019 `sort` is stable.
- **Outside influences.**
  - `Date.now()`, `Math.random()` and the outcome of the simulated network or OAuth round trip are fields of an `Env` parameter. The outcome is `passes`; the random suffixes of ids and tokens are `idTail` and `tokenTail`; `now` is the timestamp used for `createdAt` and the export date.
  - `setTimeout` delays are not modelled.
- **Default arguments.** The source's defaults (`currency = 'USD'`, `page = 1`, `perPage = 12`, and the `limit` of 4, 8 or 12) are default parameter values of the matching Dafny members.
- **What the store holds.** A store value is a serialised user, a serialised list of ids, or other text. The model treats other text as failing `JSON.parse`. That is true for text that is not JSON, but not for other JSON such as `null`, a number or a string; "## Left out" says what this costs.

## Model

| member | source | states |
|---|---|---|
| ProductManager.FormatPriceRoundTrip | assets/js/main.js:309-311 | the formatted price starts with `$`, `parseInt` of the rest gives back the price, and it ends with the currency code |
| ProductManager.CategoryLabelRoundTrip | assets/js/main.js:516-522 | for a value without capitals, lower-casing the generated label gives back the value |
| ProductManager.CategoryLabelCapitalizes | assets/js/main.js:516-522 | for a non-empty value without capitals, the label is the value with only its first letter upper-cased |
| ProductManager.GetCategories | assets/js/main.js:516-522 | one choice per category, in order; each value is the category, its label is the category with the first letter upper-cased, and the label lower-cases back to it |
| ProductManager.CategoryValuesLowercase | assets/js/main.js:5 | the five category values have no capitals, so every label round-trips |
| ProductManager.BrandLabelSlugRoundTrip | assets/js/main.js:524-532 | for a lower-case hyphenated brand value, the brand filter's slug rule applied to its label gives back the value |
| ProductManager.BrandValuesAreSlugs | assets/js/main.js:6 | every brand value is lower-case words joined by single hyphens |
| ProductManager.WordCapitalized | assets/js/main.js:527-529 | a word without hyphens, capitalized, is the word with its first letter upper-cased |
| ProductManager.GlueCapitalized | assets/js/main.js:527-530 | two captions joined by a space describe the two words joined by a hyphen |
| ProductManager.BrandLabelOfWord | assets/js/main.js:527-530 | the label of a value without hyphens is the value capitalized |
| ProductManager.BrandLabelAtHyphen | assets/js/main.js:527-530 | the label of a value with a hyphen is its first word capitalized, a space, then the label of what follows the hyphen |
| ProductManager.BrandLabelCapitalized | assets/js/main.js:524-532 | for any value, the label has the value's length; at each position it holds a space where the value has a hyphen, the upper-cased letter at the start of the value or after a hyphen, and the value's own letter elsewhere |
| ProductManager.GetBrands | assets/js/main.js:524-532 | one choice per brand, in order; each label is its value with hyphens as spaces and every word's first letter upper-cased, and slugging the label gives back the value |
| ProductManager.FirstWordMissesBrand | assets/js/main.js:323-328 | a brand option that is only the first word of a multi-word brand (e.g. `fenty` for "Fenty Beauty") matches neither branch of the brand filter |
| ProductManager.PriceFilterOpenEnded | assets/js/main.js:330-335 | the price filter `n+` keeps exactly the products priced at least `n` |
| ProductManager.PriceFilterRange | assets/js/main.js:330-335 | the price filter `a-b` keeps exactly the products priced `a` to `b` inclusive |
| ProductManager.PriceFilterWithoutDash | assets/js/main.js:330-335 | a price filter with neither `+` nor `-` gives `max = NaN` and keeps nothing |
| ProductManager.SomeTagContainsIff | assets/js/main.js:342 | `tags.some(tag => tag.includes(term))` holds iff some tag contains the term |
| ProductManager.SortKeyOrder | assets/js/main.js:347-362 | for each `sortBy` value, which of two products goes first: price ascending, price descending, newest, best rated, or most reviewed (also the default) |
| ProductManager.QueryContents | assets/js/main.js:314-362 | the filtered and sorted list holds exactly the catalog's products that pass every given filter, each as often as in the catalog |
| ProductManager.QueryOrder | assets/js/main.js:347-362 | the list is ordered by the chosen key, and products with equal keys keep their catalog order |
| ProductManager.StageFilters | assets/js/main.js:318-344 | each `if (filters.x)` step narrows the list by that filter's callback, or leaves it as it is when the filter is absent or empty |
| ProductManager.ApplyFilters | assets/js/main.js:316-344 | the four filter steps applied in turn give the products that pass all given filters |
| ProductManager.AllStages | assets/js/main.js:318-344 | the four steps together amount to filtering once by every given filter |
| ProductManager.GetFilteredProducts | assets/js/main.js:314-370 | the result is page `page` of the sorted query; each product in it is from the catalog and passes the filters; it is sorted and holds at most `perPage` products; `page` is 1 and `perPage` 12 when not given |
| ProductManager.PagesOfQuery | assets/js/main.js:364-369 | pages 1 to `k` together are the whole query once `k * perPage` covers the catalog |
| ProductManager.GetProductById | assets/js/main.js:419-422 | `None` iff no product has the id; otherwise a catalog product with that id |
| ProductManager.GetProductByIdIsFirst | assets/js/main.js:419-422 | the product found is the first one with the id (`Array.find`) |
| ProductManager.GetProductByIdFindsListed | assets/js/main.js:419-422 | with unique ids, looking up a listed product's id finds that product |
| ProductManager.SeedLookups | assets/js/main.js:14-305 | every seeded product is found by its own id |
| ProductManager.GetRetailerInfo | assets/js/main.js:540-545 | no offers for an unknown id; with unique ids, the product's own offers |
| ProductManager.GetProductsByIds | assets/js/main.js:372-376 | exactly the catalog products whose id is listed, in catalog order |
| ProductManager.GetProductsByIdsOfProducts | assets/js/main.js:372-376 | with unique ids, asking for the ids of an ordered selection of the catalog returns that selection |
| ProductManager.SearchProducts | assets/js/main.js:378-388 | exactly the products whose lower-cased name or brand, or one of whose tags, contains the lower-cased query, in catalog order |
| ProductManager.SearchWithinSearchFilter | assets/js/main.js:337-344 | every `searchProducts` hit also passes the search filter of `getFilteredProducts` (which additionally looks at the description) |
| ProductManager.SearchEmptyQuery | assets/js/main.js:378-388 | the empty query returns the whole catalog |
| ProductManager.TopOf | assets/js/main.js:434-438 | `filter().sort().slice(0, limit)`: at most `limit` items from the pool, sorted, none left out ranks ahead of one kept, and items tying on the key come in pool order, the earliest of the tie kept |
| ProductManager.RatingOrder | assets/js/main.js:436 | ordering by the rating key puts higher ratings first |
| ProductManager.GetSimilarProducts | assets/js/main.js:425-439 | none for an unknown id; otherwise the best-rated other products sharing the target's category or brand, at most `limit` (4 by default), ties in catalog order |
| ProductManager.GetTrendingProducts | assets/js/main.js:441-447 | the most-reviewed trending products, at most `limit` (8 by default), ties in catalog order |
| ProductManager.DiscountOrder | assets/js/main.js:453-457 | the sale comparator puts the larger fraction off first |
| ProductManager.GetSaleProducts | assets/js/main.js:450-460 | the on-sale products with the largest discount, at most `limit` (12 by default), ties in catalog order |
| ProductManager.GetProductsByCategory | assets/js/main.js:463-469 | the best-rated products of the category, at most `limit` (12 by default), ties in catalog order |
| ProductManager.GetProductsByBrand | assets/js/main.js:472-479 | the best-rated products passing the brand rule, at most `limit` (12 by default), ties in catalog order |
| ProductManager.ComparePrices | assets/js/main.js:547-561 | `null` for an unknown id; a TypeError for a product with no offers; otherwise all offers sorted by price with equal-priced offers in their listed order, the lowest offer is the first of that list and the highest the last, both are the product's offers with the least and greatest price, and the savings are their difference |
| ProductManager.SortedOffersBounds | assets/js/main.js:551-559 | after sorting a product's offers by price, the first and last are offers of the product with the least and greatest price |
| ProductManager.OffersKeepTies | assets/js/main.js:551 | sorting offers by price keeps offers at the same price in their listed order |
| ProductManager.SortThree | assets/js/main.js:551 | three offers whose last is cheapest and whose first is no dearer than the second sort as last, first, second |
| ProductManager.FoundationLookup | assets/js/main.js:15-40 | looking up id `1` in the seed finds the Fenty foundation |
| ProductManager.HairDryerLookup | assets/js/main.js:185-208 | looking up id `8` in the seed finds the Dyson hair dryer |
| ProductManager.ComparePricesOfFoundation | assets/js/main.js:547-561 | for product 1 the sorted offers are Amazon 39, Sephora 40, Ulta 42; lowest Amazon, highest Ulta, savings 3 |
| ProductManager.ComparePricesOfHairDryer | assets/js/main.js:547-561 | for product 8 the sorted offers are Amazon 425, Ulta 430, Sephora 430 (the tie keeps its listed order); lowest Amazon, highest Sephora, savings 5 |
| ProductManager.SomeIncludedIff | assets/js/main.js:393-395 | `supportedRetailers.some(r => url.includes(r))` holds iff some retailer occurs in the URL |
| ProductManager.AddProductByUrl | assets/js/main.js:390-416 | rejected iff no supported retailer occurs in the URL; the error names every retailer; otherwise pending with a 24-48 hour review |
| ProductManager.GetSupportedRetailers | assets/js/main.js:534-537 | a URL is accepted for submission iff it contains one of the returned retailers |
| Seqs.FilterPrefix | assets/js/main.js:438 | filtering a prefix of a list gives a prefix of the filtered list |
| Seqs.TopStable | assets/js/main.js:434-438 | after `sort` and `slice(0, limit)`, the items tying on the key are a prefix of the pool's tying items, in pool order |
| Text.SplitAt | assets/js/main.js:528 | `split` at the first separator gives the part before it followed by the split of the rest |
| Seqs.PageIsSlice | assets/js/main.js:364-369 | page `p` of `n` is the slice from `(p-1)*n` to `p*n`, clamped, and holds at most `n` items |
| Seqs.SortBySorted | assets/js/main.js:347-362 | the sort's result is ordered by the key |
| Seqs.SortByStable | assets/js/main.js:347-362 | items of equal key keep their relative order through the sort |
| Catalog.SeedIsWellFormed | assets/js/main.js:14-305 | there are twelve seeded products, each with a known category, a non-negative price and review count, a rating from 0 to 5, at least one retailer, and an original price above the sale price when on sale |
| Catalog.SeedHasUniqueIds | assets/js/main.js:14-305 | no two seeded products share an id |
| Session.ValidateEmailIsPattern | assets/js/auth/AuthManager.js:354-357 | the validator accepts exactly the strings of the form `a@b.c` with `a`, `b`, `c` non-empty and free of whitespace and `@` |
| Session.ValidEmailShape | assets/js/auth/AuthManager.js:354-357 | an accepted address has no whitespace, exactly one `@` not at the start, and a `.` strictly inside its domain |
| Session.SaveUserData | assets/js/auth/AuthManager.js:300-304 | with a current user, writes it under the user key; with none, changes nothing |
| Session.SaveAuthToken | assets/js/auth/AuthManager.js:306-310 | writes a token under the token key and nothing else |
| Session.ClearAuthData | assets/js/auth/AuthManager.js:312-317 | anonymous afterwards, with the user and token keys gone and every other key unchanged |
| Session.ClearUserGeneratedData | assets/js/auth/AuthManager.js:319-323 | the wishlist and owned keys gone, everything else unchanged |
| Session.SetAuthenticatedUser | assets/js/auth/AuthManager.js:291-298 | signed in as the user, with the user saved, a token stored, and only those two keys changed |
| Session.CheckExistingSession | assets/js/auth/AuthManager.js:17-31 | restores the saved user when both keys are set and the saved value is a serialised user; clears both keys when it is not one; otherwise changes nothing |
| Session.RestoreAuthenticatesIff | assets/js/auth/AuthManager.js:17-31 | a page load is signed in iff both keys are set and the saved value is a serialised user |
| Session.RestoreSignedIn | assets/js/auth/AuthManager.js:17-31 | reloading a signed-in session gives back the same session |
| Session.SignInWithEmail | assets/js/auth/AuthManager.js:39-75 | succeeds iff the email is valid, the password has at least 6 characters and the request passes; each failure leaves the state as it was, with its message; on success the user is named after the part before `@`, has provider `email`, and is signed in and saved |
| Session.SignUpWithEmail | assets/js/auth/AuthManager.js:77-125 | succeeds iff the email is valid, the password is long enough, the trimmed name has at least 2 characters, no account is stored for the email, and the request passes; each failed check gives its own reply in that order (invalid email, short password, missing name, existing account, network error) and changes nothing; success stores the account and signs in |
| Session.AccountKeyIsNotSessionKey | assets/js/auth/AuthManager.js:93-116 | the per-account key never collides with the session, wishlist or owned keys |
| Session.SignInWithProvider | assets/js/auth/AuthManager.js:128-159 | succeeds iff the provider is supported and the OAuth flow passes; an unsupported provider or a cancelled flow each give their own message with the state unchanged |
| Session.SignOut | assets/js/auth/AuthManager.js:162-178 | anonymous, with the user and token keys removed and nothing else changed |
| Session.SignOutIdempotent | assets/js/auth/AuthManager.js:162-178 | signing out twice is the same as signing out once |
| Session.RestoreAfterSignOut | assets/js/auth/AuthManager.js:17-31 | after a sign-out, a page load restores nothing |
| Session.SignInThenSignOut | assets/js/auth/AuthManager.js:39-75 | an email sign-in followed by a sign-out leaves what signing out alone would |
| Session.ProviderSignInThenSignOut | assets/js/auth/AuthManager.js:128-159 | a provider sign-in followed by a sign-out leaves what signing out alone would |
| Session.SignUpThenSignOut | assets/js/auth/AuthManager.js:77-125 | a sign-up followed by a sign-out leaves what signing out alone would, plus the stored account |
| Session.SignInSurvivesReload | assets/js/auth/AuthManager.js:17-31 | after a successful sign-in, a page load restores that same session |
| Session.MergeOverwritesOnlyGiven | assets/js/auth/AuthManager.js:196 | `{...user, ...updates}` replaces exactly the given fields; an empty update changes nothing |
| Session.UpdateProfile | assets/js/auth/AuthManager.js:181-208 | throws when signed out; rejects a non-empty invalid email, then a non-empty name shorter than 2 characters after trimming, then a failed request, each with its own reply and no change; on success merges the updates and saves the user |
| Session.MergePreferencesLaws | assets/js/auth/AuthManager.js:216 | each given key replaces its preference and each absent key keeps it; no updates is the identity; merging the same updates again changes nothing more |
| Session.UpdatePreferences | assets/js/auth/AuthManager.js:211-225 | throws when signed out; otherwise merges the preferences into the user and saves the user |
| Session.DeleteAccount | assets/js/auth/AuthManager.js:248-264 | throws when signed out; otherwise signs out and clears the wishlist and owned lists |
| Session.DeletedAccountBlocksSignUp | assets/js/auth/AuthManager.js:248-264 | deleting an account keeps its stored record, so no later sign-up with that email can succeed |
| Session.SignUpRefusesStoredAccount | assets/js/auth/AuthManager.js:92-96 | with otherwise valid input, a stored account record for the email yields "already exists" and leaves the state unchanged |
| Session.ReadList | assets/js/auth/AuthManager.js:271-272 | a missing key reads as the empty list; a present one parses iff it holds a list |
| Session.SyncUserData | assets/js/auth/AuthManager.js:267-288 | does nothing when signed out; succeeds iff both lists parse and the request passes, copying them into the saved user; otherwise changes nothing |
| Session.ExportUserData | assets/js/auth/AuthManager.js:463-494 | never changes the state; throws when signed out; otherwise exports the profile, both lists and the export date |
| Session.ResetPassword | assets/js/auth/AuthManager.js:228-245 | succeeds iff the email is valid and the request passes, with the matching message in each case |
| Session.AnonymousGuards | assets/js/auth/AuthManager.js:181-288 | every account operation refuses an anonymous user and leaves the state unchanged |
| Session.GuestActionEffect | assets/js/auth/AuthManager.js:431-445 | ignored when signed in or for other actions; otherwise stores the counter plus one as text and prompts when it is at least 3 and a multiple of 5 |
| Session.GuestStepCounts | assets/js/auth/AuthManager.js:437-442 | from stored count `k`, a counted action stores `k+1`, touches only the counter key, and prompts iff `k+1` meets the rule |
| Session.GuestStepPrompts | assets/js/auth/AuthManager.js:437-442 | from stored count `k`, a counted action prompts iff `k+1` is at least 3 and a multiple of 5 |
| Session.GuestRunStep | assets/js/auth/AuthManager.js:437-438 | one more counted action after a run whose counter reads `n-1` stores `n` as its digits, keeps the user and signs no one in, and touches no other key |
| Session.GuestRunCounts | assets/js/auth/AuthManager.js:437-438 | `n` counted actions from a fresh store leave the count `n`, written in decimal, with nothing else changed |
| Session.GuestPromptsEveryFifth | assets/js/auth/AuthManager.js:441 | the `n`-th counted action prompts iff `n` is a multiple of 5 |
| Session.PromptsAtMultiplesOfFive | assets/js/auth/AuthManager.js:441 | for a positive count, "at least 3 and a multiple of 5" is the same as "a multiple of 5" |
| Session.GuestCounterStuckAtNaN | assets/js/auth/AuthManager.js:437-438 | once the stored counter does not parse, it is rewritten as `NaN` and never prompts again |
| Session.OperationsKeepConsistent | assets/js/auth/AuthManager.js:17-323 | over the model's stores, every operation keeps `isAuthenticated` true exactly when there is a current user |
| Text.ParseIntOfNatString | assets/js/auth/AuthManager.js:437-438 | `parseInt(n.toString())` is `n` |
| Auth.AuthManager.constructor | assets/js/auth/AuthManager.js:3-31 | starts anonymous, restores any saved session as `Session.CheckExistingSession` does, and is consistent |
| Auth.AuthManager.CheckExistingSession | assets/js/auth/AuthManager.js:17-31 | the fields become what `Session.CheckExistingSession` gives |
| Auth.AuthManager.SignInWithEmail | assets/js/auth/AuthManager.js:39-75 | keeps the object consistent; new fields and reply are `Session.SignInWithEmail`'s |
| Auth.AuthManager.SignUpWithEmail | assets/js/auth/AuthManager.js:77-125 | keeps the object consistent; new fields and reply are `Session.SignUpWithEmail`'s |
| Auth.AuthManager.SignInWithProvider | assets/js/auth/AuthManager.js:128-159 | keeps the object consistent; new fields and reply are `Session.SignInWithProvider`'s |
| Auth.AuthManager.SignOut | assets/js/auth/AuthManager.js:162-178 | keeps the object consistent; new fields and reply are `Session.SignOut`'s |
| Auth.AuthManager.UpdateProfile | assets/js/auth/AuthManager.js:181-208 | keeps the object consistent; new fields and reply are `Session.UpdateProfile`'s |
| Auth.AuthManager.UpdatePreferences | assets/js/auth/AuthManager.js:211-225 | keeps the object consistent; new fields and reply are `Session.UpdatePreferences`'s |
| Auth.AuthManager.ResetPassword | assets/js/auth/AuthManager.js:228-245 | changes nothing; the reply is `Session.ResetPassword`'s |
| Auth.AuthManager.DeleteAccount | assets/js/auth/AuthManager.js:248-264 | keeps the object consistent; new fields and reply are `Session.DeleteAccount`'s |
| Auth.AuthManager.SyncUserData | assets/js/auth/AuthManager.js:267-288 | keeps the object consistent; new fields and reply are `Session.SyncUserData`'s |
| Auth.AuthManager.ExportUserData | assets/js/auth/AuthManager.js:463-494 | changes nothing; the reply is `Session.ExportUserData`'s |
| Auth.AuthManager.OnGuestAction | assets/js/auth/AuthManager.js:431-445 | keeps the object consistent; new store and prompt are `Session.OnGuestAction`'s |
| Auth.AuthManager.SetAuthenticatedUser | assets/js/auth/AuthManager.js:291-298 | the fields become what `Session.SetAuthenticatedUser` gives |
| Auth.AuthManager.ClearAuthData | assets/js/auth/AuthManager.js:312-317 | the fields become what `Session.ClearAuthData` gives |
| Auth.AuthManager.ClearUserGeneratedData | assets/js/auth/AuthManager.js:319-323 | the fields become what `Session.ClearUserGeneratedData` gives |
| Auth.AuthManager.SaveUserData | assets/js/auth/AuthManager.js:300-304 | the fields become what `Session.SaveUserData` gives |
| Auth.AuthManager.SaveAuthToken | assets/js/auth/AuthManager.js:306-310 | the fields become what `Session.SaveAuthToken` gives |
| Admin.FindIndex | admin/dashboard.js:746-748 | -1 iff no pending product has the id; otherwise the first position holding it |
| Admin.RemoveFirstEffect | admin/dashboard.js:745-759 | an absent id leaves the list unchanged; otherwise it loses exactly the first entry with the id, the entries before it are untouched, and the rest keep their order |
| Admin.RemoveFirstIdCount | admin/dashboard.js:746-753 | removing a pending id leaves one fewer entry with that id |
| Admin.RemoveFirstOfAbsent | admin/dashboard.js:749 | an id that no pending product carries leaves the list unchanged |
| Admin.RemoveFirstCons | admin/dashboard.js:746-753 | removal drops the head when it matches and otherwise keeps it and removes from the tail |
| Admin.RemovalsCommute | admin/dashboard.js:745-774 | approving or rejecting two submissions gives the same list in either order |
| Admin.CategoryCountsPartition | admin/dashboard.js:356-380 | when every product's category is one of distinct card values, the cards' counts add up to the number of products |
| Admin.CategoriesDistinct | assets/js/main.js:5 | the five category values are distinct |
| Admin.LoadedProductsAreCatalog | admin/dashboard.js:46-61 | for a catalog of at most 50, the loaded product list is the catalog reordered, so each category card shows the catalog's own count |
| Admin.AdminDashboard.constructor | admin/dashboard.js:3-61 | starts on the dashboard section with the sample submissions, the first 50 products by popularity, and a badge of 2 |
| Admin.AdminDashboard.LoadInitialData | admin/dashboard.js:46-61 | loads the sample submissions and the first 50 products by popularity, and the badge shows the list length |
| Admin.AdminDashboard.SwitchSection | admin/dashboard.js:63-74 | only the current section changes |
| Admin.AdminDashboard.UpdatePendingCount | admin/dashboard.js:795-798 | the badge shows the current number of pending products |
| Admin.AdminDashboard.ApproveProduct | admin/dashboard.js:745-759 | the list loses the first entry with the id; the badge is refreshed when something was removed and otherwise kept; the section and product list are unchanged |
| Admin.AdminDashboard.RejectProduct | admin/dashboard.js:761-774 | the same effect on the pending list and the badge as approving |
| Admin.AdminDashboard.ApproveProductWithEdits | admin/dashboard.js:776-793 | the edits are ignored and the product is approved as submitted |
| Admin.AdminDashboard.CategoryCard | admin/dashboard.js:373 | the card's number is the count of loaded products in that category, at most the number loaded |

## Left out

- Rendering, DOM events, modals, notifications, Chart.js and all HTML building in the three files. This includes `updateUIFor*`, `promptGuestToSignUp`, `loadSection` and the `render*` methods other than the category count. They only display state.
- `AuthModalManager`, `assets/js/ui/components.js` and `tailwind.config.js`: user-interface code and configuration outside the core.
- `trackPriceChanges`: it builds a random 31-day history with `Math.random` and `Date`, and nothing else reads that history.
- Time, randomness and the simulated network: `Date.now`, `Math.random`, the `setTimeout` round trips and the OAuth flow's outcome are inputs carried in `Env`. Delays and the prompt's 2-second timer are not modelled.
- Async ordering. `setAuthenticatedUser` starts `syncUserData` without awaiting it. The admin constructor does not await `loadInitialData`. The model runs each operation to completion, so the sync in `setAuthenticatedUser` is left out; it is modelled as `SyncUserData` on its own.
- JSON and `Blob`. Stored values are serialised users, id lists or other text. Other JSON (`null`, a number, a string, an object of another shape) is treated as unparseable, and the exported file is the `Exported` reply rather than a download.
- Session.CheckExistingSession: a saved user that is JSON but not a user record (`null`, `false`, a number, a string, a list) is treated as unparseable, so the model drops both keys and stays anonymous. The source's `JSON.parse` accepts it: `currentUser` becomes that value and `isAuthenticated` becomes true. For a falsy value such as `null`, `updateUIForAuthenticatedUser` then skips without throwing. The model's `currentUser` holds a user or nothing, so it cannot hold such a value.
- Session.RestoreAuthenticatesIff: the saved value counts only when it is a serialised user. In the source a page load with both keys set also ends authenticated when the saved user is other JSON, as the line above describes.
- Session.OperationsKeepConsistent: holds for the model's stores only. In the source the invariant fails after a page load whose saved user is a falsy JSON value (`beautyFindUser` holding `null`, with a token): it ends authenticated without a user. The app never writes such a value itself.
- Auth.AuthManager.constructor: inherits the session-restore gap above. With a saved JSON `null` user and a token the source ends authenticated without a user, while the model ends anonymous with both keys removed.
- The getters `getCurrentUser`, `isUserAuthenticated` and `getUserPreferences`: they return fields directly, and the object's fields are visible in the model.
- Session.UpdateProfile: only the `email` and `name` keys of the update object are modelled. Other keys the spread would also copy into the user are not.
- Session.UpdatePreferences: only the four known preference keys (`emailAlerts`, `weeklyRoundup`, `categories`, `brands`) can be updated. Other keys the spread would also add to the preferences are not modelled.
- Session.SignInWithEmail: password length is counted in characters of the Dafny string, not in UTF-16 code units.
- Session.SignUpWithEmail: `password.length` and `name.trim().length` are counted in characters of the Dafny string, not in UTF-16 code units.
- Session.UpdateProfile: `name.trim().length` is counted in characters of the Dafny string, not in UTF-16 code units.
- Session.OnGuestAction: the counter is an unbounded integer. In the source `parseInt(...) + 1` is a double, which stops growing at 2^53 and is written in exponent form from 1e21. Only a stored value the app did not write can get there.
- Text.Lower: ASCII case mapping only. `toLowerCase` of other letters is not modelled.
- Text.ParseInt: decimal integers only. `parseInt` of hexadecimal, fractions and exponents is not modelled.
- Text.ToNumber: `Number` is modelled on blank text and on runs of decimal digits only. Decimals, exponents, hexadecimal and signed forms give `NaN` here, while `Number` reads them as numbers, because the model's numbers are integers.
- ProductManager.PriceBounds: inherits the limit of `Text.ToNumber`. A price filter with a fractional or exponent bound, such as `10.5-20`, keeps nothing in the model, while the source keeps the products priced between the bounds (ids 2 and 12 of the seed for `10.5-20`).
- ProductManager.DiscountKey: a product without a positive `originalPrice` gets key 0. The source computes `-Infinity`, `NaN` or a division by `null` for it. Every seeded product on sale has a positive original price, so the seed's sale list is unaffected.
- The catalog is a parameter, not the fixed seed. Seed-specific example results are proved only for `comparePrices` on products 1 and 8. Other queries' outputs on the twelve products are not proved, because they cost more than the solver allows here.
- The sample users, analytics figures and charts of the dashboard, and the `submittedAt` and image fields of pending products.
- `approveProductWithEdits` parses the form (`parseFloat` of the price, split and trimmed tags) but never uses the result. The model takes the edits as raw strings and drops them, and the parsing is not modelled.
