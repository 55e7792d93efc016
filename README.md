# Website enhancement script, modelled in Dafny

This project models the decision logic of the site's client-side script
`js/main.js`. The script renders project cards, filters them by category,
shows a project's details, lazy-loads card images, toggles the mobile
navigation menu and records newsletter signups in browser storage. The DOM,
the dialogs and the storage facility are abstracted away:

- **Catalogue** (`catalogue.dfy`) covers the hard-coded project list and the
  filter selector's options. The options are `"all"`, then each distinct
  category in first-seen order. It also covers filtering: `""` or `"all"`
  selects everything, any other value selects by exact, case-sensitive
  equality, and order is kept. Lookup by id returns the first match, or a
  "Project not found." acknowledgment. Rendering is reduced to a list of
  card descriptors, one per record and in input order. The projects
  container is a class whose `cards` field each render replaces.
- **Newsletter** (`newsletter.dfy`) holds the email check
  `/^\S+@\S+\.\S+$/`. It is stated as a language over indices and decided by
  a function proved equal to it. Next come the case-insensitive duplicate
  test and `Submit`, the specification of one form submission. A
  `SignupStore` class holds the stored list and its `HandleSubmit` method
  does the read-modify-write. The stored emails stay pairwise distinct,
  ignoring case.
- **Navigation** (`navigation.dfy`) is the two-state toggle over the
  `aria-expanded` string and the nav list's `display` mode, as a function and
  as a class holding the two DOM values.
- **LazyImages** (`lazy_images.dfy`) is the per-image part of the lazy
  loader. `LazyLoadInit` hands selected images to the observer, or, when
  there is no observer, starts loading those selected images whose
  `data-src` is non-empty. The observer callback and the
  load handler are methods on an image object.
- **Text** (`text.dfy`) gives ASCII models of `trim`, `toLowerCase` and the
  regex class `\s`. **Wrappers** (`wrappers.dfy`) holds `Option`.

A detail the model keeps from the code: `['all', ...new Set(...)]` does not
remove a project category spelled `"all"`. Such a catalogue gets a second
`"all"` option. Selecting either one shows the whole list, because
`filterProjects` tests for `"all"` before it filters.
`Catalogue.CategoryOptionsSpec` therefore states distinctness only for the
options after the first.

The current time (`new Date().toISOString()`) is the `date` parameter of
`Submit` and `HandleSubmit`. Whether the runtime has `IntersectionObserver`
is the `hasObserver` parameter of `LazyLoadInit`. Whether an observer entry
is intersecting is the `isIntersecting` parameter of `Image.Intersect`.
Dialog texts are values: `ModalText` for the project modal and
`OutcomeText` for the three signup outcomes.

## Model

| member | source | states |
|---|---|---|
| `Text.Trim` | js/main.js:55-56 | the trimmed field is the slice of the input between a maximal whitespace prefix and a maximal whitespace suffix; it is empty exactly when the input is all whitespace, and otherwise neither starts nor ends with whitespace |
| `Text.TrimIdempotent` | js/main.js:55-56 | trimming an already trimmed field changes nothing |
| `Text.TrimWithoutEdgeSpace` | js/main.js:55-56 | a field that neither starts nor ends with whitespace is kept as it is |
| `Text.ToLower` | js/main.js:60 | lower-casing keeps the length and maps every character on its own: an upper-case ASCII letter becomes its lower-case partner, every other character is kept, and no upper-case letter is left |
| `Text.ToLowerIdempotent` | js/main.js:60 | lower-casing twice is lower-casing once, so a lower-cased email equals its source ignoring case |
| `Catalogue.CategoryOptions` | js/main.js:110 | the option list is never empty and starts with "all" |
| `Catalogue.Distinct` | js/main.js:110 | the spread `Set` holds exactly the categories that occur, each once |
| `Catalogue.DistinctFirstSeenOrder` | js/main.js:110 | the distinct categories come in the order of their first occurrence in the catalogue |
| `Catalogue.CategoryOptionsSpec` | js/main.js:110 | the options are "all", then every category of the catalogue and nothing else, each once, in first-seen order |
| `Catalogue.OfCategory` | js/main.js:47 | the filtered list holds exactly the projects of the catalogue whose category is equal to the chosen one, and is no longer than the catalogue |
| `Catalogue.OfCategoryAppend` | js/main.js:47 | filtering distributes over concatenation, so the catalogue's relative order is kept |
| `Catalogue.OfCategoryAllMatch` | js/main.js:47 | a list whose projects all have the chosen category passes whole |
| `Catalogue.FilterProjects` | js/main.js:45-49 | an empty value or "all" gives the catalogue unchanged; any other value gives exactly the projects of that category, compared case-sensitively, in catalogue order |
| `Catalogue.OfferedCategoryIsNonEmpty` | js/main.js:110-112 | every option after "all" that the selector offers selects at least one project |
| `Catalogue.FindProject` | js/main.js:40 | the result is absent exactly when no project has the id; when present it is the first project with that id |
| `Catalogue.OpenProjectModal` | js/main.js:39-43 | "Project not found." exactly when no project has the id; otherwise the title and summary of the first project with that id |
| `Catalogue.RenderCards` | js/main.js:12-25 | one card per record, in input order, each carrying the record's id, placeholder src, full-resolution data-src, alt text, title, summary and category |
| `Catalogue.CardRoundTrip` | js/main.js:14-24 | a card carries every field of its record: the record can be read back from it |
| `Catalogue.RenderRoundTrip` | js/main.js:12-25 | the rendered cards give back the whole record list, in order |
| `Catalogue.ActivateCard` | js/main.js:34-43 | clicking a card shows "Project not found." exactly when no project has the card's id, otherwise the title and summary of the first project with that id; `ActivatingCardShowsItsProject` shows this is the card's own project when ids are unique |
| `Catalogue.CardKeyPress` | js/main.js:35 | a keypress activates the card exactly when the key is Enter, with the click's result: the first project with the card's id, or "Project not found." when there is none; `EnterShowsCardsProject` gives the card's own project |
| `Catalogue.EnterShowsCardsProject` | js/main.js:34-35 | with unique ids, pressing Enter on any card of a filtered view shows that card's own project, as a click does; any other key shows nothing |
| `Catalogue.ActivatingCardShowsItsProject` | js/main.js:31-43 | with unique ids, clicking any card of a filtered view shows that card's own project |
| `Catalogue.ShippedCatalogue` | js/main.js:2-5 | the shipped catalogue offers "all", "Workshop", "Template" and has unique ids |
| `Catalogue.Container.RenderProjects` | js/main.js:12-27 | the container's content is replaced by the cards of the list, from which the list can be read back |
| `Catalogue.Container.FilterChanged` | js/main.js:45-49 | the change handler renders exactly the filtered subset |
| `Newsletter.EmailShapeMatchesPattern` | js/main.js:57 | the decision function accepts exactly the language of `^\S+@\S+\.\S+$` |
| `Newsletter.ValidEmailSpec` | js/main.js:57 | the trimmed email is accepted exactly when it is non-empty, has no whitespace, and has an '@' and a later '.' that split it into three non-empty runs |
| `Newsletter.ValidEmail` | js/main.js:57 | an email is accepted exactly when it is non-empty and in the language of `^\S+@\S+\.\S+$`; `ValidEmailSpec` restates that language as an x@y.z split |
| `Newsletter.SecondAtAccepted` | js/main.js:57 | the loose check accepts "a@b@c.d" |
| `Newsletter.SampleAddressAccepted` | js/main.js:57 | "ada@example.com" is accepted |
| `Newsletter.NotAnEmailRejected` | js/main.js:57 | "not-an-email" is rejected |
| `Newsletter.NotAnEmailStoresNothing` | js/main.js:55-57 | submitting "not-an-email" is rejected as invalid and leaves any stored list unchanged |
| `Newsletter.EmptyRunsRejected` | js/main.js:57 | an empty run before '@', between '@' and '.', or after '.' is rejected |
| `Newsletter.EmailTaken` | js/main.js:60 | the duplicate test holds exactly when some stored email equals the new one ignoring case |
| `Newsletter.Submit` | js/main.js:55-63 | an invalid email is rejected; a valid one stored already, ignoring case, is refused; both leave the list unchanged; otherwise exactly one record with the trimmed name, the trimmed email and the date is appended at the end |
| `Newsletter.SubmitKeepsEmailsDistinct` | js/main.js:58-63 | a submission keeps the stored emails pairwise distinct ignoring case |
| `Newsletter.SameIgnoringCaseKeepsPattern` | js/main.js:57-60 | two addresses equal ignoring case are both accepted or both rejected by the email check |
| `Newsletter.CaseVariantRejected` | js/main.js:60-61 | after a successful signup, a submission of the same email in other letter case is refused as already signed up and leaves the list unchanged |
| `Newsletter.FirstSignupStored` | js/main.js:55-63 | a valid email submitted to an empty store becomes its only record, with the trimmed name and email and the date |
| `Newsletter.SignupOnce` | js/main.js:55-63 | a valid email signs up once into an empty store; a second submission is refused and the store still holds exactly that one record |
| `Newsletter.SignupStore.constructor` | js/main.js:59 | storage without the entry reads as the empty list |
| `Newsletter.SignupStore.HandleSubmit` | js/main.js:51-66 | the outcome and the new stored list are those of `Submit` on the old list, and the distinct-emails invariant is kept |
| `Navigation.Toggle` | js/main.js:119-123 | a click flips the expanded state; an attribute other than "true" counts as collapsed; afterwards the attribute is "true" or "false" and the display is "flex" or "none" to match |
| `Navigation.ToggleTwice` | js/main.js:119-123 | two clicks from a consistent state restore both values |
| `Navigation.ToggleThrice` | js/main.js:119-123 | from any state, three clicks end where one click does |
| `Navigation.NavMenu.Click` | js/main.js:119-123 | the click handler updates the attribute and the display mode as `Toggle` says |
| `LazyImages.Image.FromCard` | js/main.js:17 | a rendered card image has the placeholder src, the card's full-resolution data-src and the "lazy-img" class |
| `LazyImages.Image.Observe` | js/main.js:90 | observing marks the image watched and changes nothing else |
| `LazyImages.Image.StartLoad` | js/main.js:94-102 | an image with a non-empty data-src gets the load handler and that source; any other image is unchanged |
| `LazyImages.Image.Intersect` | js/main.js:72-87 | an intersecting entry loads its real source, if any, and is unobserved; a non-intersecting entry changes nothing |
| `LazyImages.Image.Loaded` | js/main.js:78-82 | after a load with the handler attached, the image has neither data-src nor the "lazy-img" class, and the handler is detached |
| `LazyImages.LazyLoadInit` | js/main.js:68-105 | with an observer, exactly the images matching `img.lazy-img[data-src]` become observed; without one, exactly those with a non-empty data-src start loading it; nothing else changes |

## Left out

- DOM querying, `innerHTML` assignment, event-listener registration and the `DOMContentLoaded` bootstrap (`init`) are platform plumbing. The filter selector, the menu toggle and the newsletter form skip their setup when their elements are missing (`if(!sel)`, `if(!btn || !navList)`, `if(!newsletterForm)`); those guards are not modelled.
- `Catalogue.Container.RenderProjects`: the model always has a container. In the script `renderProjects` has no guard: when neither `#projects-list` nor `#projects-list-page` exists, `container.innerHTML` (js/main.js:26) throws, and because `init` calls it before registering the newsletter handler (js/main.js:129-131), that handler is then never registered. The model does not capture this failure.
- `Catalogue.Container.FilterChanged` re-renders the container it is called on. In the script `filterProjects` calls `renderProjects` without a container (js/main.js:46, 48), so it always renders into `#projects-list` through the default parameter at js/main.js:12, not into the container `init` chose; on a page that has only `#projects-list-page`, the change handler throws. The model does not capture which element is targeted.
- The observer's scheduling and its `rootMargin: '100px'` look-ahead are left out because they are asynchronous platform behaviour. Entries reach the model one at a time through `Image.Intersect`.
- `alert` dialogs become returned values (`Modal`, `Outcome`) with their texts (`ModalText`, `OutcomeText`).
- `localStorage`, `JSON.parse` and `JSON.stringify` become the `stored` field of `SignupStore`. Storage failures and corrupt stored data are not modelled.
- `new Date().toISOString()` is nondeterministic, so it is a parameter.
- `FormData` extraction, its `|| ''` default for a missing field and `form.reset()` are left out. Missing fields are passed as empty strings.
- `Number(card.dataset.id)` is not modelled: a card carries its id as an integer, so the string round trip is taken to be exact.
- `Text.Trim`, `Text.ToLower`, `Text.IsSpace`: only ASCII whitespace and ASCII letters are modelled. Unicode whitespace and non-ASCII case mappings are outside the model.
- The exact HTML text of cards and options is not modelled: cards are descriptors and an option's value is the category itself. The script inserts record fields into markup without escaping them (js/main.js:15-22 and 111), so a field containing `"`, `<` or `&` would be parsed differently; a category `Say "hi"`, for instance, would offer the value `Say `, which selects no card. The model assumes no field contains those characters, and `Catalogue.OfferedCategoryIsNonEmpty`, `Catalogue.CardRoundTrip` and `Catalogue.RenderRoundTrip` hold only under that assumption. The shipped catalogue meets it.
- `Newsletter.SignupOnce` is stated for any valid email rather than for the sample signup of "Ada" with "ada@example.com", which succeeds once and is refused the second time. The literal address itself is shown to be accepted by `Newsletter.SampleAddressAccepted`.
