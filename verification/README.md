# Portfolio page scripts — a verified model of their decision logic

The repository holds two static portfolio pages. Each has one browser script:
`Markdown/portfolio/js/script.js` (the "portfolio" script) and
`Simple-Prompt/script.js` (the "second" script). Both scripts attach
listeners and toggle CSS classes. Inside those handlers is a small amount of
pure decision logic, and this project models it in Dafny:

- contact-form validation in both scripts, including the e-mail pattern
  `^[^\s@]+@[^\s@]+\.[^\s@]+$`;
- which navigation link becomes active for a scroll position, under each
  script's own band convention;
- scroll thresholds and the add-only reveal classes;
- the mobile-menu and hamburger states, and the project filter;
- the `throttle` gate, the footer-year replacement and the typing effect
  (which neither page calls: the portfolio's call is commented out at
  `Markdown/portfolio/js/script.js:358`, and `typeWriter` has no caller).

The DOM is replaced by plain values:

- sections are records of `id`, `offsetTop` and `offsetHeight`;
- links are records of `href` and an active flag;
- a field's error display is either `Cleared` or `Showing(message)`;
- a set of element numbers stands for the elements that carry a reveal class.

Attributes and `FormData` entries that can be `null` are `Option` values.

A Dafny `char` is a Unicode scalar value, and the model reads each one as a
single UTF-16 code unit of a JavaScript string, so `.length`, `charAt` and the
non-Unicode regular expression are read per character. That reading is exact
only when every character is at most U+FFFF. Strings with characters outside
the Basic Multilingual Plane are outside the model: JavaScript counts each such
character as two code units, so a one-emoji name has length 2 there.
`Text.IsWhitespace` is the ECMAScript WhiteSpace and LineTerminator set.
Both `\s` and `String.prototype.trim` use that set, and every member of it is
a single code unit.

Layout, one module per concern:

| file | modules |
|---|---|
| `text.dfy` | `Wrappers`, `Text` |
| `email.dfy` | `Email` |
| `contact_form.dfy` | `ContactForm` (portfolio form) |
| `prompt_contact.dfy` | `PromptContact` (second form) |
| `nav.dfy` | `Nav`, `PortfolioNav`, `PromptNav` |
| `scroll_flags.dfy` | `ScrollFlags` |
| `reveal.dfy` | `Reveal` |
| `menu.dfy` | `Menu`, `Hamburger` |
| `throttle.dfy` | `Throttle` |
| `project_filter.dfy` | `ProjectFilter` |
| `footer.dfy` | `Footer` |
| `typewriter.dfy` | `Typewriter` |

## Model

| member | source | states |
|---|---|---|
| Text.Trim | Markdown/portfolio/js/script.js:179-181 | `trim` keeps one contiguous slice of the value. Everything dropped before and after it is white space. The slice neither starts nor ends with white space. It is empty exactly when the value is all white space, and a value without white space is kept whole. |
| Text.TrimIdempotent | Markdown/portfolio/js/script.js:179-181 | Trimming an already trimmed value changes nothing. |
| Email.ValidEmailIffPattern | Markdown/portfolio/js/script.js:137-140 | The check holds exactly when the regular expression, read literally, matches. The check is: no white space, exactly one '@', a non-empty part before it, and a '.' that is neither the first nor the last character of the part after it. The literal reading is: an '@' and a later '.' split the string into three non-empty runs of characters that are neither white space nor '@'. |
| Email.ValidEmailIsTrimmed | Markdown/portfolio/js/script.js:137-140 | An address the pattern accepts is non-empty and has nothing for `trim` to remove. |
| Email.EmailExamples | Simple-Prompt/script.js:173-174 | "a@b.co" matches; "a@b", "a.b@" and "" do not. |
| ContactForm.ShowError | Markdown/portfolio/js/script.js:147-155 | `showError` sets the named field's message and leaves the other two fields as they were. |
| ContactForm.ClearError | Markdown/portfolio/js/script.js:161-169 | `clearError` clears the named field only. |
| ContactForm.CheckField | Markdown/portfolio/js/script.js:188-213 | One field's branch passes exactly when the trimmed value is non-empty and meets the field's rule. An empty value gets the "Please enter…" message, and a value that breaks the rule gets the rule's message. No other field changes. |
| ContactForm.CheckAll | Markdown/portfolio/js/script.js:183-215 | After clearing all three errors, each field is checked with no short-circuit. The verdict is true exactly when no field shows an error. |
| ContactForm.ValidateForm | Markdown/portfolio/js/script.js:175-216 | Valid exactly when the trimmed name has at least 2 characters, the trimmed e-mail is non-empty and well formed, and the trimmed message has at least 10. Every field ends showing exactly the message its own trimmed value calls for. |
| ContactForm.ValidateIgnoresEarlierErrors | Markdown/portfolio/js/script.js:183-186 | Errors shown before the submit have no effect on the verdict or on the errors shown after it. |
| ContactForm.ValidateAcceptsBoundaries | Markdown/portfolio/js/script.js:189-213 | A 2-character name and a 10-character message are accepted. A 1-character name or a 9-character message is rejected. |
| ContactForm.ValidateUntrimmable | Markdown/portfolio/js/script.js:179-215 | For inputs without white space, the verdict depends on the raw values exactly as it does on trimmed ones. |
| ContactForm.Blur | Markdown/portfolio/js/script.js:256-269 | Leaving a field touches that field only. An empty trimmed value is never flagged. A non-empty value that breaks the field's rule shows that rule's message, and otherwise the field is cleared. |
| ContactForm.BlurAgreesWithSubmit | Markdown/portfolio/js/script.js:256-269 | For a non-empty trimmed value, blurring a field shows exactly what a submit would show for it, whatever the other fields hold. |
| ContactForm.HandleFormSubmit | Markdown/portfolio/js/script.js:222-247 | The verdict and the errors shown are exactly those of `validateForm`. The success banner appears exactly when the form is valid. A valid form is reset to empty inputs, and an invalid one keeps its values. |
| PromptContact.Submit | Simple-Prompt/script.js:156-177 | Each outcome comes with its exact condition. "Missing fields" means some entry is null or empty. "Invalid e-mail" means none is, but the e-mail fails the pattern. "Sending" means none is empty and the e-mail passes. |
| PromptContact.WhitespaceFieldsAreSent | Simple-Prompt/script.js:166-170 | Nothing is trimmed, so fields holding only white space pass the presence check and the form is sent. |
| PromptContact.EmptyEmailIsMissing | Simple-Prompt/script.js:167-177 | An absent or empty e-mail is reported as a missing field, never as a malformed address: the presence check runs first. |
| PromptContact.SentEmailPassesPortfolioCheck | Simple-Prompt/script.js:173-177 | Any e-mail this form sends would also pass the portfolio form's trimmed e-mail check. |
| PromptContact.PaddedEmailOnlyPassesPortfolio | Simple-Prompt/script.js:173-177 | The converse fails: "a@b.co " passes the portfolio's check after trimming but is rejected here. |
| Nav.LastMatch | Markdown/portfolio/js/script.js:303-318 | The reference answer for both loops. It is `None` exactly when no section is in the band. Otherwise it is the index of a section in the band with no later section in the band. |
| Nav.LastMatchStep | Simple-Prompt/script.js:54-64 | Taking in one more section in document order makes it the last match if it matches, and otherwise keeps the earlier answer. |
| PortfolioNav.MarkLinks | Markdown/portfolio/js/script.js:311-316 | A match leaves every link active exactly when its `href` is the target, and changes no `href`. |
| PortfolioNav.MarkLinksOverrides | Markdown/portfolio/js/script.js:303-318 | A later match's marking completely replaces an earlier one's. |
| PortfolioNav.UpdateActiveNavLink | Markdown/portfolio/js/script.js:299-319 | A section matches when `top <= scrollY < top + offsetHeight` with `top = offsetTop - navHeight - 100`. With no match the links are unchanged. Otherwise a link is active exactly when its `href` is `"#"` plus the id of the last matching section in document order. |
| PortfolioNav.MarkLinksExclusive | Markdown/portfolio/js/script.js:311-316 | When hrefs are distinct, at most one link is active after a match. |
| PromptNav.FirstWithHref | Simple-Prompt/script.js:58 | The selector's answer is the first link in document order with that `href`, or none. |
| PromptNav.ActivateOnly | Simple-Prompt/script.js:61-62 | A match leaves only that first link active, so at most one link is active. No link is active when none points at the section. |
| PromptNav.ActivateOnlyOverrides | Simple-Prompt/script.js:54-64 | A later match's activation completely replaces an earlier one's. |
| PromptNav.HighlightNavLink | Simple-Prompt/script.js:51-65 | A section matches when `top < scrollY <= top + offsetHeight` with `top = offsetTop - 100`. With no match the links are unchanged. With a match at most one link is active: the first link pointing at the last matching section. If no link points at it, none is active. |
| PromptNav.BandsDifferByOne | Simple-Prompt/script.js:56-60 | For a whole-pixel scroll position `y`, the portfolio band with nav height `h` at `y` is exactly this script's band at `y + h + 1`. One band is closed at its top, the other at its bottom. |
| PromptNav.BoundaryConventions | Simple-Prompt/script.js:60 | At a band's exact top the portfolio matches and this script does not. At its exact bottom it is the other way round. |
| PromptNav.DistinctHrefsAgree | Simple-Prompt/script.js:61-62 | When hrefs are distinct, "mark every link with the target href" and "activate the first such link" give the same links. |
| ScrollFlags.OnScroll | Simple-Prompt/script.js:33-46 | The navigation bar has `scrolled` exactly when `scrollY > 50`, and the back-to-top button is `visible` exactly when `scrollY > 500`. The second implies the first. |
| ScrollFlags.ReplayKeepsOnlyLast | Simple-Prompt/script.js:33-46 | After any non-empty run of scroll events, the flags are those of the last position alone. |
| ScrollFlags.FlagsMonotone | Simple-Prompt/script.js:34-41 | Both flags are monotone in the scroll position. |
| ScrollFlags.NavbarStyle | Markdown/portfolio/js/script.js:281-291 | The portfolio navigation bar takes one of exactly two inline styles: the raised one exactly when `scrollY > 50`, the resting one otherwise. |
| ScrollFlags.NavbarThresholdsAgree | Markdown/portfolio/js/script.js:284 | The portfolio bar takes its raised style exactly where the second script sets `scrolled`. |
| Reveal.RevealOnScroll | Simple-Prompt/script.js:116-128 | An element gains the class exactly when its top is above `innerHeight - 150`. No element loses it, and no unwatched element gains it. |
| Reveal.OnIntersect | Simple-Prompt/script.js:326-332 | An observer callback adds the class to exactly the targets of intersecting entries and removes none. |
| Reveal.RunMonotone | Markdown/portfolio/js/script.js:93-101 | The scroll and observer handlers only ever add reveal classes. No interleaving of scroll handlers and observer callbacks removes one. |
| Reveal.RunAppend | Simple-Prompt/script.js:130-131 | Handling two runs of events one after the other is handling their concatenation. |
| Reveal.RevealedGrowsAlongRun | Simple-Prompt/script.js:116-131 | Along any run, every earlier revealed set is contained in every later one. |
| Reveal.RevealIdempotent | Simple-Prompt/script.js:116-128 | Repeating a scroll at the same geometry changes nothing. |
| Reveal.RevealNothingWatched | Simple-Prompt/script.js:117-119 | With no watched elements the handler changes nothing. |
| Reveal.AnimateSkillBars | Simple-Prompt/script.js:137-147 | A bar whose top is above `innerHeight - 100` is assigned the width string `progress + '%'`, which is "null%" when the attribute is absent. Other bars keep their last assigned width, and nothing else changes. |
| Reveal.AnimateIdempotent | Simple-Prompt/script.js:137-147 | Animating twice at the same geometry is animating once. |
| Reveal.RevealedHeightStartsBar | Simple-Prompt/script.js:122-124 | Wherever a scroll newly reveals an element, a skill bar at the same height gets its width. The skill-bar trigger is the looser of the two. |
| Menu.Toggle | Markdown/portfolio/js/script.js:17-31 | The menu's active class flips, and every bar is drawn for the new state. |
| Menu.Close | Markdown/portfolio/js/script.js:36-42 | The menu is inactive and every bar transform is `none`. |
| Menu.OnDocumentClick | Markdown/portfolio/js/script.js:51-55 | A click outside both the toggle and the menu does exactly what `closeMobileMenu` does: the class is removed and every bar is reset. Any other click leaves the state as it was. |
| Menu.ToggleTwice | Markdown/portfolio/js/script.js:17-31 | Two toggles restore the active class. They restore the whole state when the bars already matched it. |
| Menu.CloseIdempotent | Markdown/portfolio/js/script.js:36-42 | Closing twice is closing once. |
| Menu.ToggleOpenIsClose | Markdown/portfolio/js/script.js:17-42 | Toggling an open menu is the same as closing it. |
| Menu.HandlersKeepBarsMatching | Markdown/portfolio/js/script.js:17-55 | Every handler keeps the bars in step with the active class. |
| Hamburger.Click | Simple-Prompt/script.js:19-22 | An icon click flips the icon's and the list's `active` class. |
| Hamburger.Close | Simple-Prompt/script.js:25-30 | A nav-link click removes both classes. |
| Hamburger.OnKey | Simple-Prompt/script.js:382-388 | Escape closes the menu exactly as a nav-link click does. Every other key leaves it alone. |
| Hamburger.ClickTwice | Simple-Prompt/script.js:19-22 | Two icon clicks restore the state. |
| Hamburger.CloseIdempotent | Simple-Prompt/script.js:25-30 | Closing twice is closing once. |
| Hamburger.HandlersKeepInStep | Simple-Prompt/script.js:19-30 | Every handler keeps the icon and the list in step. |
| Throttle.Next | Markdown/portfolio/js/script.js:386-395 | A call is passed on exactly when the gate is idle. A call whose `func` returns leaves the gate busy. A call whose `func` throws leaves the gate as it was, because `func` runs before the flag is set and the timer is scheduled. A timer expiry leaves the gate idle. |
| Throttle.ForwardedBound | Markdown/portfolio/js/script.js:386-395 | There is at most one passed-on call per busy window. Over any run, passed-on calls, plus one if the run ends idle, are at most the timer expiries plus the throwing calls, plus one if it started idle. |
| Throttle.NoTimerAtMostOne | Markdown/portfolio/js/script.js:389-392 | Without a timer expiry or a throwing call, a run passes on at most one call. |
| Throttle.BusyUntilTimer | Markdown/portfolio/js/script.js:389-392 | Once busy, the gate stays busy and drops every call, throwing or not, until a timer expires. |
| Throttle.ThrowingCallsAllForwarded | Markdown/portfolio/js/script.js:389-392 | When `func` throws, the gate never closes: from idle, every call of a run of throwing calls is passed on. |
| Throttle.OnlyTimerReopens | Markdown/portfolio/js/script.js:392 | Only a timer expiry takes a busy gate back to idle. |
| ProjectFilter.ClickFilter | Simple-Prompt/script.js:84-110 | After a click, exactly the clicked button is active. A card is shown exactly when the button's filter is "all" or equals the card's category. Attributes and the order of buttons and cards are kept. |
| ProjectFilter.OneActiveButton | Simple-Prompt/script.js:87-88 | After a click, exactly one button is active. |
| ProjectFilter.AllShowsEveryCard | Simple-Prompt/script.js:95 | The "all" button shows every card. |
| ProjectFilter.ClickIdempotent | Simple-Prompt/script.js:84-110 | Clicking the same button again changes nothing. |
| ProjectFilter.ClickForgetsPreviousFilter | Simple-Prompt/script.js:84-110 | Once each click has settled, the result depends only on the last clicked button, not on earlier clicks. |
| ProjectFilter.MissingAttributesMatch | Simple-Prompt/script.js:90-95 | A button without `data-filter` shows the cards without `data-category`. |
| Footer.IndexOf | Simple-Prompt/script.js:360 | The search finds the first occurrence of the pattern, or reports that there is none. |
| Footer.ReplaceFirst | Simple-Prompt/script.js:360 | Only the first occurrence is replaced, and the rest of the string is kept. With no occurrence the string is unchanged. |
| Footer.ReplaceBySelf | Simple-Prompt/script.js:360 | Replacing the pattern by itself leaves the string unchanged. |
| Footer.Decimal | Simple-Prompt/script.js:359-360 | The year is written as non-empty decimal digits with no leading zero. |
| Footer.DecimalRoundTrip | Simple-Prompt/script.js:359-360 | Reading the written digits back gives the year. |
| Footer.FooterText | Simple-Prompt/script.js:357-361 | The first "2024" in the footer becomes the current year, and the rest of the text is unchanged. |
| Footer.FooterIn2024 | Simple-Prompt/script.js:357-361 | In 2024 the footer text is left as written. |
| Footer.OnlyFirstReplaced | Simple-Prompt/script.js:360 | "2024-2024" in 2026 becomes "2026-2024". |
| Typewriter.Tick | Simple-Prompt/script.js:293-299 | While text remains, a tick appends the next character and advances. At the end it changes nothing. |
| Typewriter.TicksShowPrefix | Simple-Prompt/script.js:289-302 | After `n` ticks from an emptied element, the element shows the first `min(n, length)` characters of the text. |
| Typewriter.TicksFrom | Markdown/portfolio/js/script.js:331-343 | From any consistent state, ticks keep "shown equals the first `index` characters" and move the index by one per tick, up to the text length. |
| Typewriter.FinishedStaysFinished | Markdown/portfolio/js/script.js:337-343 | Once the whole text is shown, further ticks change nothing. |

## Left out

- DOM querying, listener registration, and the `classList`/`style` plumbing are replaced by values.
- `showError` and `clearError` check that the error and input elements exist. The model takes every field to have both.
- Timing is left out, because it is scheduling and not decision logic. This covers:
  - every `setTimeout` delay: the typing-effect interval, the throttle limit, the 100 ms and 300 ms card fades, the 1500 ms simulated send, the 5 s success banner and the notification slide-out;
  - the project-filter settled state: cards are modelled after their delayed `display` updates. A second click before a 300 ms timer fires can still hide a card the new filter shows; that interleaving is not modelled.
- Throttle.Next: the timer is an event that may arrive at any time, so the model admits more runs than the source can produce. Every proved bound holds for that larger set of runs. Whether `func` throws is part of the event, not computed: `func` is code outside the model.
- PromptNav.FirstWithHref: section ids are taken to contain no `"`, no `\` and no CSS newline (line feed, carriage return, form feed). The script pastes the raw id into the selector `.nav-link[href="#id"]`. A `"` or a newline makes that selector invalid, so `querySelector` throws and the `forEach` stops at that section. A `\` starts a CSS escape, so the selector can match a different `href`. The model compares hrefs exactly, and it does not model the escape rules of CSS.
- PromptNav.HighlightNavLink: for the same reason, the model always finishes the loop. The abort that an invalid selector causes, at any section whether or not it matches, is not modelled.
- Reveal.AnimateSkillBars: the model records the string assigned to `style.width`. The browser ignores an invalid value such as "null%" (a bar without `data-progress`) or a non-numeric progress, and the bar keeps its previous width. The model does not parse CSS values.
- ContactForm.HandleFormSubmit: `contactForm.reset()` restores each input's default value from the page. The model takes every default to be the empty string.
- `debounce` is defined in the portfolio script but never called. It is not modelled.
- The notification markup and styles, the `focused` class on form groups, card hover transforms, the preloader class, and the console messages are left out. They are presentation only.
- Smooth scrolling (`scrollTo`, `scrollIntoView`), the parallax `scrolled * 0.3`, and the stagger delays `index * 0.1s` are left out. They are browser animation with floating-point values.
- The intersection observer's geometry (threshold, root margin, intersection ratio) is computed by the browser. It is an input (`isIntersecting`) here.
- `window.scrollY`, `getBoundingClientRect().top`, `offsetTop`, `offsetHeight` and `innerHeight` are taken as whole pixels (`int`). Browsers report `scrollY` and the rectangle as doubles, which are fractional on zoomed or high-DPI pages.
- PromptNav.BandsDifferByOne: the one-pixel shift between the two bands holds only for whole-pixel scroll positions. At a fractional `scrollY` such as 99.5, a section at 200 with height 50 is outside the portfolio band but inside the second script's band at 100.5.
- Reveal.RunMonotone: the elements watched for reveal are taken to be none of `.hamburger`, `.nav-links`, `.nav-link` or `.filter-btn`. The second script's reveal class is `active`, and its hamburger, nav-link, highlight, filter and Escape handlers remove `active` from those elements. Those removals are not events of the reveal model.
- `new Date().getFullYear()` is a parameter, `year: nat`.
- Footer.ReplaceFirst: `$` substitution patterns in the replacement are not modelled. The replacement is the year's digits, which contain no `$`.
- Menu.OpenTransform: the middle bar's `'opacity: 0'` is recorded as the string the script assigns. Whether a browser accepts it as a `transform` value is CSS parsing and is not modelled.
- Strings are sequences of characters, each read as one UTF-16 code unit, so every character is taken to be at most U+FFFF. Strings with characters outside the Basic Multilingual Plane (surrogate pairs in JavaScript) are outside the model. Unicode normalisation and the regular-expression engine itself are not modelled; the e-mail pattern is stated directly.
