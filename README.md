# Password generator widget — a Dafny model

This project models the logic of a client-side password-generator page
(`index.js`). The page has three pieces of logic, and the model covers each of them:

- **Password construction** (`createPassword`). For each ticked character class, taken in the order
  lowercase, uppercase, digit, symbol, the code draws one required character and appends that class's
  alphabet to the pool. It then fills from the pool up to the requested length. Last, it shuffles the
  array in place with Fisher–Yates and joins it into a string.
- **Reveal animation** (`animatePasswordDisplay`), modelled as the list of texts it shows. Step `i`
  shows `i + 1` mask characters followed by decoy characters. After the loop, the display shows the
  mask repeated once per password character.
- **Page state**. This is `actualPassword`, `passwordVisible` and the text of the password element. Three
  handlers change it: `validOption`, `generatePassword` and `togglePasswordVisibility`.

Each `Math.floor(Math.random() * n)` becomes an index chosen with `0 <= k < n` (a `:|` choice), so
every contract holds for every possible draw. The shuffle returns the draws it made as a ghost value.
That makes the shuffled array equal to `FisherYates.Shuffled(original, draws, |draws|)`, and that function
is proved to be a permutation.

Files: `alphabets.dfy` (classes, alphabets, options, pool, decoys), `fisher_yates.dfy` (the in-place
shuffle), `password_builder.dfy` (`createPassword`), `reveal.dfy` (the animation frames), `session.dfy`
(the page state as a class).

Three facts about the code shape the model:

- The code never truncates. The fill loop starts at the number of required characters and never
  removes any, so the password has length `max(length, number of ticked classes)` and always contains
  every ticked class.
- The first frame already masks one position; there is no all-decoy frame. In all the display shows
  `len + 1` texts: `len` loop frames and the final masked text.
- Nothing cancels a running animation, so no cancellation is modelled.

The page's mask `*` is itself one of the decoy characters (`Reveal.MaskIsDecoy`). A frame can
therefore show more `*` than the positions it masks. The count of mask characters in frame `i` is
exactly `i + 1` only for a mask outside the decoy alphabet (`Reveal.MaskedCount`).

## Model

| member | source | states |
|---|---|---|
| `Alphabets.Enabled` | index.js:121-137 | every listed class is ticked; the list is non-empty exactly when some box is ticked |
| `Alphabets.EnabledComplete` | index.js:121-137 | every ticked class is listed |
| `Alphabets.EnabledOrdered` | index.js:121-137 | the list follows the order lowercase, uppercase, digit, symbol |
| `Alphabets.Pool` | index.js:118-137 | the pool `validChars` is non-empty exactly when some box is ticked |
| `Alphabets.LowercaseRange` | index.js:113 | the lowercase alphabet lies in the code-point range a–z |
| `Alphabets.UppercaseRange` | index.js:114 | the uppercase alphabet lies in the code-point range A–Z |
| `Alphabets.DigitRange` | index.js:115 | the digit alphabet lies in the code-point range 0–9 |
| `Alphabets.AlphabetClass` | index.js:113-116 | every character of a class's alphabet is classified as that class |
| `Alphabets.AlphabetsDisjoint` | index.js:113-116 | no character belongs to two class alphabets |
| `Alphabets.PoolMembership` | index.js:118-135 | a character is in the pool iff it is in the alphabet of some ticked class |
| `Alphabets.DisabledNotInPool` | index.js:118-137 | no character of an unticked class is in the pool |
| `FisherYates.Swap` | index.js:148 | the destructuring swap keeps the length |
| `FisherYates.SwapPermutes` | index.js:148 | a swap keeps the multiset of characters |
| `FisherYates.Shuffled` | index.js:146-149 | any number of loop steps keeps the length |
| `FisherYates.ShuffledPermutes` | index.js:146-149 | whatever the draws (each `j <= i`), the shuffled sequence is a permutation of the original |
| `FisherYates.Shuffle` | index.js:146-149 | the in-place loop makes one draw `0 <= j <= i` for each i from len-1 down to 1, and leaves the array equal to `Shuffled(old array, draws)`, hence a permutation of it |
| `PasswordBuilder.Pick` | index.js:124 | a random index into a non-empty alphabet yields one of its characters |
| `PasswordBuilder.IncludeClass` | index.js:122-125 | a ticked class appends its alphabet to the pool and pushes one character of that alphabet; an unticked class changes nothing |
| `PasswordBuilder.DrawRequired` | index.js:118-137 | `validChars` is the pool of the ticked classes; `requiredChars` holds exactly one character per ticked class, each from that class's alphabet, in class order |
| `PasswordBuilder.FillRemaining` | index.js:140-143 | the array has length `max(length, #required)`, starts with the required characters unchanged, and every added character comes from the pool |
| `PasswordBuilder.RequiredGivesCoverage` | index.js:121-149 | a text that contains every required character has a character of each ticked class |
| `PasswordBuilder.FilledPasswordProperties` | index.js:118-149 | any rearrangement of required characters plus pool characters contains the required characters, uses only pool characters, no character of an unticked class, and at least one character of each ticked class |
| `PasswordBuilder.CreatePassword` | index.js:112-152 | the password has length `max(length, number of ticked classes)`; every character is in the pool; no character of an unticked class appears; every ticked class appears at least once, whatever `length` is; the drawn required characters are all in it |
| `Reveal.Repeat` | index.js:97 | `c.repeat(n)` has length n and every position holds c |
| `Reveal.BuildFrame` | index.js:83-91 | frame i has the password's length, the mask in positions 0..i and decoy-alphabet characters after |
| `Reveal.RevealFrames` | index.js:78-98 | exactly len loop frames, frame i shaped as above (one more masked position per step), followed by the mask repeated len times; for an empty password the only text is the empty string |
| `Reveal.LastStepFullyMasked` | index.js:89-97 | the last loop frame already equals the final fully masked text |
| `Reveal.RepeatCount` | index.js:97 | `c.repeat(n)` holds exactly n copies of c |
| `Reveal.MaskedCount` | index.js:82-93 | with a mask outside the decoy alphabet, frame i shows exactly i + 1 mask characters |
| `Reveal.MaskIsDecoy` | index.js:80 | the mask `*` the page uses is also a decoy character |
| `Session.ToggledConsistent` | index.js:178-187 | toggling keeps the password, flips visibility when a password is held, and leaves the display showing the password or its mask accordingly |
| `Session.ToggleTwice` | index.js:178-187 | from a consistent state, toggling twice restores the state |
| `Session.ToggleWithoutPassword` | index.js:178 | with no password, toggling changes nothing |
| `Session.ClickDuringAnimation` | index.js:94-97 | a click during the animation (a run of index.js:180-182 at the `await`), followed by the final masked write, leaves the page marked visible but showing only masks (inconsistent), and the next click leaves the text unchanged |
| `Session.ClickDuringAnimationHidden` | index.js:62-71 | with visibility reset to hidden when the animation ends, the same click leaves a consistent hidden page and the next click shows the password |
| `Session.PasswordSession.constructor` | index.js:17-18 | the page starts with no password and hidden |
| `Session.PasswordSession.ValidOption` | index.js:32-44 | returns false exactly when no class is ticked; then it clears the password and shows the message; otherwise nothing changes |
| `Session.PasswordSession.GeneratePassword` | index.js:50-72 | with no class ticked, only the validation effect; otherwise a password with the properties of `CreatePassword` (length, pool only, no unticked class, every ticked class), hidden, shown through the reveal frames and left fully masked, i.e. in the state `AnimationEndHidden` gives |
| `Session.PasswordSession.TogglePasswordVisibility` | index.js:176-188 | does nothing without a password; otherwise flips visibility and shows the password or `*` repeated its length; the result is always consistent |

## Left out

- The DOM element lookups, colours, fonts, button classes and the message styling are not modelled. The model keeps only the displayed text (index.js:4-12, 19, 38-40, 63-65, 70-71).
- The slider/number synchronisation and the lock-icon listeners are not modelled. They are event wiring with no logic (index.js:25-26, 197-216).
- `copyPassword` and `showMessage` are not modelled, because they are a clipboard call and a timer (index.js:157-171).
- `sleep` and the `await` between frames are left out: the animation is a list of texts and `GeneratePassword` runs it to completion. Its guarantees `!passwordVisible` and `Consistent(old) ==> Consistent(new)`, the "always consistent" result of `TogglePasswordVisibility`, and `ToggleTwice` therefore hold only for runs with no click during an animation. With a click, the page ends marked visible while showing masks (see `Session.ClickDuringAnimation` and "## Findings").
- A second generation started during a first animation is not modelled. Both animations then write to the display: the first one's later frames and its final masked text can show the old password's length while `actualPassword` already holds the new password.
- `Math.random` is replaced by an index choice in range. Distribution and uniformity are not modelled.
- `parseInt` of the length input is left out, so `length` is an integer parameter. A `NaN` length makes the fill loop skip, exactly like a length at or below the number of ticked classes.
- PasswordBuilder.CreatePassword: requires a ticked class. Its only caller checks this first (index.js:51). With no class, JavaScript would push `undefined` entries that join to an empty string.
- PasswordBuilder.CreatePassword: the fill grows a sequence and the shuffle runs on an array holding a copy of it. In the code, `requiredChars` and `passwordArray` are one aliased array that is pushed to and then shuffled.
- Reveal.RevealFrames: the clearing of the display at index.js:79 is not listed as a frame. The first frame overwrites it before the first pause.
- Reveal.RevealFrames: the mask is a single character. In the code `maskChar` is a string, and the page always passes `"*"`.

## Findings

| source | as written | input that shows it | evidently intended | confidence | as-written member | corrected member |
|---|---|---|---|---|---|---|
| index.js:62, 97, 70-71 | `passwordVisible` is set to false before the animation, and the end of the animation only rewrites the text, while the button is reset to "off" | click the show button while the frames are still changing, for a password with a character other than `*` | when the animation ends the page is hidden: `passwordVisible` is false, matching the "off" button and the masked text | medium, not executed | `Session.ClickDuringAnimation` | `Session.ClickDuringAnimationHidden` |
