# Portfolio page state, modelled in Dafny

The portfolio site is a single page of seven sections (about, education,
skills, projects, certifications, activities, contact) under a fixed
navigation bar. The `Portfolio` component in `app/page.tsx` keeps its own
state and changes it from event handlers:

- the scroll handler highlights the section under the navigation bar;
- an intersection observer records which sections have been seen, so that
  their reveal animation can run;
- the navigation buttons scroll to a section;
- the contact form keeps four text fields and simulates a submission.

The DOM is abstracted away. Each `document.getElementById` becomes a lookup in
a *layout*: a sequence of entries `(id, box)`, in section order, where `box`
holds the element's `offsetTop` and `offsetHeight` as integers. A `box` of
`None` means that no element has that id.

Files:

- `wrappers.dfy` holds the `Option` datatype.
- `sections.dfy` (module `Sections`) holds the seven ids, the layout types,
  the first-match scan used by the scroll handler, `getElementById`, the
  nav-link highlight check, and the lemmas about them.
- `contact_form.dfy` (module `ContactForm`) holds the form record, the
  per-field update and its lemmas.
- `portfolio.dfy` has two modules. `Portfolio` holds the class
  `PortfolioPage`: the component's state is its fields and each handler is a
  method. `PortfolioScenario` holds client methods that walk through page
  sessions using only the contracts.

The class has the four state fields `activeSection`, `visibleSections`,
`formData` and `isSubmitting`. It has one more field, `observed`: the ids of
the elements handed to `observer.observe`. Its invariant `Valid()` says three
things:

- the active section is one of the seven ids;
- only section ids are observed;
- only observed ids are ever revealed.

Every handler that can change these fields keeps `Valid()`.

The contact submission is split into two steps:

- `BeginSubmit` is the submit event. It starts only when the browser would
  dispatch it: every control is `required` (app/page.tsx:594, 610, 626, 641)
  and the submit button is `disabled` while submitting (app/page.tsx:650).
- `CompleteSubmit` is what runs after the one-second delay. It always
  succeeds and clears the form.

## Model

| member | source | states |
|---|---|---|
| Sections.FirstMatch | app/page.tsx:48-58 | the index returned holds an existing element whose `[top, top+height)` contains the point, and no earlier entry's extent does; `None` only when no entry's element contains the point |
| Sections.FirstMatchIsFirst | app/page.tsx:48-58 | any entry that contains the point with no earlier match is exactly what the scan returns (the `break` makes later matches irrelevant) |
| Sections.MatchedId | app/page.tsx:48-58 | the scan finds an id exactly when some existing section contains the point, and the id found is that of the first such section |
| Sections.ActiveAfterScroll | app/page.tsx:44-60 | when no existing section contains `scrollY + 100` the active section is kept; any new value is the id of a section that contains that point |
| Sections.ScrollSelectsFirstMatch | app/page.tsx:46-56 | after a scroll to `scrollY`, the active section is the first section in order whose extent contains `scrollY + 100` |
| Sections.ScrollOnEmptyPageKeepsActive | app/page.tsx:49-50 | when no section element exists, a scroll never changes the active section |
| Sections.ScrollResultIsSection | app/page.tsx:45-55 | on a page layout, the scan's result is one of the seven section ids or else the previous value |
| Sections.PresentEntries | app/page.tsx:49-50 | an entry is kept exactly when it is in the layout and its element was found, and the result is no longer than the layout |
| Sections.PresentEntriesKeepsOrder | app/page.tsx:48-50 | the found entries keep layout order: filtering a concatenation gives the concatenation of the filtered parts |
| Sections.MissingSectionsAreSkipped | app/page.tsx:49-50 | scanning the full layout picks the same id as scanning only the sections whose element exists, so a missing section is skipped and the scan continues |
| Sections.GetElementById | app/page.tsx:67 | a found element belongs to an entry carrying the id; an id no entry carries finds nothing |
| Sections.GetElementByIdFirst | app/page.tsx:67 | the lookup answers with the element of the first entry carrying the id |
| Sections.SectionIdsDistinct | app/page.tsx:35 | the seven section ids are pairwise distinct |
| Sections.GetElementByIdOnPage | app/page.tsx:36 | on a page layout, looking up the i-th section id yields the i-th entry's element (or nothing when it is missing) |
| Sections.IsActiveLink | app/page.tsx:120 | a navigation link is highlighted when its item id equals the active section |
| Sections.ExactlyOneActiveLink | app/page.tsx:120 | while the active section is a section id, exactly one navigation link is highlighted |
| ContactForm.WithField | app/page.tsx:73-78 | the updated field holds the new value and the other three fields are unchanged |
| ContactForm.FieldsDetermineForm | app/page.tsx:12-17 | two forms that agree on all four fields are equal |
| ContactForm.WithSameValueIsIdentity | app/page.tsx:73-78 | writing a field's current value back leaves the form unchanged |
| ContactForm.LastWriteWins | app/page.tsx:73-78 | of two changes to the same field, only the later one is kept |
| ContactForm.DistinctWritesCommute | app/page.tsx:73-78 | changes to two different fields can be applied in either order |
| ContactForm.IsFilled | app/page.tsx:594 | the browser submits only when none of the four `required` fields is empty (the same attribute is at lines 610, 626 and 641) |
| ContactForm.EmptyFormIsNotFilled | app/page.tsx:87-92 | the cleared form fails the required-field check, so it cannot be resubmitted before it is refilled |
| Portfolio.Revealed | app/page.tsx:25-29 | an id is revealed by a callback exactly when some entry of that callback targets it and is intersecting |
| Portfolio.FoundIds | app/page.tsx:35-38 | an id is observed exactly when its lookup found an element |
| Portfolio.PortfolioPage.constructor | app/page.tsx:9-18 | initial state: active section "about", nothing visible or observed, empty form, not submitting |
| Portfolio.PortfolioPage.ObserveSections | app/page.tsx:34-38 | the observed set grows by exactly the section ids whose element exists; the invariant is kept |
| Portfolio.PortfolioPage.OnIntersect | app/page.tsx:24-30 | `visibleSections` grows by exactly the intersecting entries' targets, never shrinks, and stays within the observed ids |
| Portfolio.PortfolioPage.HandleScroll | app/page.tsx:44-60 | the loop computes the first-match scan: the new active section is the scan's result, or the old value if nothing matched; nothing else changes |
| Portfolio.PortfolioPage.ScrollToSection | app/page.tsx:66-71 | a scroll to the element's top is requested exactly when the lookup finds an element; otherwise nothing happens, and the page state never changes |
| Portfolio.PortfolioPage.ClickNavLink | app/page.tsx:116-118 | clicking the i-th navigation button requests a scroll to the i-th section's top exactly when that section's element exists, and changes no state |
| Portfolio.PortfolioPage.HandleInputChange | app/page.tsx:73-79 | the form becomes the old form with only field `f` set to the new value |
| Portfolio.PortfolioPage.BeginSubmit | app/page.tsx:81-83 | a submission starts exactly when none is in progress and all four fields are non-empty; starting sets `isSubmitting` |
| Portfolio.PortfolioPage.CompleteSubmit | app/page.tsx:87-93 | completion always succeeds: the four fields become "" and `isSubmitting` becomes false; the cleared form fails the required check, so the next submit does not start until a field is written |

## Left out

- The JSX markup, the Tailwind class strings and the static content arrays
  (education, skills, projects, certifications, activities). They are
  presentation and configuration.
- `isLoaded` (app/page.tsx:11, 21). It is set once at mount and only drives
  the about section's CSS.
- How the browser decides intersection (`threshold: 0.1`, `rootMargin:
  "-50px"`). Each entry's `isIntersecting` is an input.
- The smooth-scroll animation. `ScrollToSection` returns the top it asks the
  browser to scroll to, as an `Option`.
- The 1000 ms timer and the `alert`. A submission is two steps instead:
  `BeginSubmit` and `CompleteSubmit`.
- CompleteSubmit: it requires `isSubmitting`, because the timer is only
  pending after a submission has started. The source clears the form
  unconditionally.
- React's effect lifecycle: `disconnect`, `removeEventListener` and state
  batching. The mount effect's observe loop is `ObserveSections`.
  Unmounting, and a completion that arrives after an unmount, are not
  modelled.
- Fractional `window.scrollY` and fractional element geometry. Scroll
  offsets and boxes are integers.
- BeginSubmit: the browser's `type="email"` format check is not modelled.
  Only the `required` non-empty check and the `disabled` button are.
- HandleInputChange: the field is one of the four form-field names. The
  source writes any `name` attribute as a key, but only these four controls
  exist.
- The layout records only the seven section lookups. The page also has
  elements with the ids `name`, `email`, `subject` and `message` (the form
  controls), which `getElementById` would find. Only the navigation buttons
  call `scrollToSection`, with the seven section ids, so the model states
  navigation through `ClickNavLink`.
- The render-time `visibleSections.has(...)` checks. They only choose CSS
  classes.
