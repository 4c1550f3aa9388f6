# Style-ratio normalisation and store permissions of the SNS dashboard

This project models, in Dafny, the small amount of logic in the SNS Director
dashboard page (`app/dashboard/page.tsx`) that is independent of the backend
and the user interface:

- `normalizeStyleRatios`: given the photo / illustration / video percentages
  and the field the user just changed, it returns a triple that sums to exactly
  100. A triple that already sums to 100 is returned untouched. Otherwise the
  changed field is kept. The first untouched field in a fixed priority order
  is scaled by `(100 - changed) / otherSum` and rounded with `Math.round`. The
  last field absorbs the remainder. A `|| 1` guard replaces a zero `otherSum`.
- The permission check: `myRole` is the role of the first store option for
  the selected store, or `"viewer"`. `canEdit` holds for `"admin"` and
  `"editor"`.
- `getStoryMetaVersion`: a story's metadata version, or 0.

Modules:

- `JsMath` (`js_math.dfy`): `Math.round` of an exact quotient `n / d` as
  `Round(n, d) == floor((2n + d) / 2d)`. It is proved against the declarative
  definition `NearestHalfUp` (`k - 1/2 <= n/d < k + 1/2`, ties towards
  +infinity), and that definition is proved to have one solution. Negative
  divisors are handled too, because the `|| 1` guard replaces only zero: for
  negative inputs `otherSum` can be negative.
- `StyleRatios` (`style_ratios.dfy`): the method `NormalizeStyleRatios`
  follows the source's reassignments of `photo`, `illust` and `video`. Its
  contract is the ghost predicate `IsNormalization`, which says:
  - the result sums to 100;
  - the changed field is kept;
  - a triple that already sums to 100 is kept;
  - otherwise the rounded field is the `Math.round` of its scaled value, in
    the `Priority` order.

  The lemmas show that this contract has exactly one solution. They also prove
  the listed properties: idempotence, the division-by-zero guard, the bounds,
  and the pass-through of values above 100.
- `Dashboard` (`dashboard.dfy`): store options, `MyRole`, `CanEdit` and
  `StoryMetaVersion`.
- `Wrappers` (`wrappers.dfy`): `Option`, with `GetOr` playing `??`.

The helper is total: its only requirement is integer inputs, and no
`requires` restricts them.

A negative share cannot arise for in-range inputs: `NormalizationBounds`
proves that, for non-negative inputs and a changed value of at most 100,
every output field lies in [0, 100]. Negative outputs arise only from a changed value above 100
(`OverfullPassesThrough`) or from negative inputs.

## Model

| member | source | states |
|---|---|---|
| `JsMath.Round` | app/dashboard/page.tsx:21-29 | `Math.round(n / d)` in exact arithmetic: the result is the nearest integer to `n / d`, halves going up (`NearestHalfUp`), for either sign of `d` |
| `JsMath.NearestHalfUpUnique` | app/dashboard/page.tsx:23 | at most one integer satisfies the definition of `Math.round(n / d)` |
| `JsMath.RoundIsNearestHalfUp` | app/dashboard/page.tsx:23 | an integer meets the definition of `Math.round(n / d)` if and only if it equals `Round(n, d)` |
| `JsMath.RoundShareBounds` | app/dashboard/page.tsx:19-29 | rounding `x * r / s` for `0 <= x <= s`, `s > 0`, `r >= 0` gives a value in `[0, r]` |
| `StyleRatios.Priority` | app/dashboard/page.tsx:22-31 | the rounded field and the absorbing field are the two fields other than the changed one; video changed rounds photo and illust absorbs; otherwise video absorbs; photo is rounded exactly when photo was not changed |
| `StyleRatios.Divisor` | app/dashboard/page.tsx:20 | the `|| 1` guard: the divisor is never 0, and a non-zero sum is used as it is |
| `StyleRatios.NormalizeStyleRatios` | app/dashboard/page.tsx:15-33 | the result sums to 100; the changed field keeps its input value; a triple summing to 100 is returned unchanged; otherwise the priority field is `Math.round(field * (100 - changed) / (otherSum || 1))` |
| `StyleRatios.NormalizationUnique` | app/dashboard/page.tsx:15-33 | the contract above fixes the result: two triples meeting it for the same input and field are equal |
| `StyleRatios.PriorityBranches` | app/dashboard/page.tsx:22-31 | the three branches written out: photo changed rounds illust and video absorbs; illust changed rounds photo and video absorbs; video changed rounds photo and illust absorbs |
| `StyleRatios.NoOpWhenTotalIs100` | app/dashboard/page.tsx:17-18 | when the inputs sum to 100, for every choice of changed field, the only normalisation is the input itself |
| `StyleRatios.NormalizationIdempotent` | app/dashboard/page.tsx:18 | normalising a result again, naming any field, returns it unchanged |
| `StyleRatios.ZeroOthersGuard` | app/dashboard/page.tsx:20-30 | when both untouched fields are 0 and the sum is not 100, the divisor is 1, the rounded field is 0 and the absorbing field is `100 - changed` |
| `StyleRatios.NormalizationBounds` | app/dashboard/page.tsx:19-31 | with all inputs non-negative and the changed value at most 100, every output field lies in [0, 100] |
| `StyleRatios.OverfullPassesThrough` | app/dashboard/page.tsx:19-31 | a changed value above 100 is returned unclamped, and one of the other two fields is then negative |
| `StyleRatios.DefaultIsNormalized` | app/dashboard/page.tsx:81-83 | the default 70 / 20 / 10 profile is left unchanged whichever field is named |
| `StyleRatios.ExampleRescale` | app/dashboard/page.tsx:19-24 | 50 / 20 / 10 with photo changed normalises to 50 / 33 / 17 |
| `StyleRatios.ExampleZeroGuard` | app/dashboard/page.tsx:20-24 | 60 / 0 / 0 with photo changed normalises to 60 / 0 / 40 through the `|| 1` guard |
| `Dashboard.FindFrom` | app/dashboard/page.tsx:101 | `find` from a position: no result exactly when no later option has the store id; otherwise the first index holding it |
| `Dashboard.MyRole` | app/dashboard/page.tsx:101 | "viewer" when no option has the selected store id; otherwise the first matching option's role, or "viewer" when that role is missing |
| `Dashboard.IsEditorRole` | app/dashboard/page.tsx:102 | only "admin" and "editor" may edit; in particular the default "viewer" role may not |
| `Dashboard.CanEdit` | app/dashboard/page.tsx:102 | editing is only ever allowed for a store that appears among the options |
| `Dashboard.CanEditIff` | app/dashboard/page.tsx:101-102 | editing is allowed if and only if the first option for the selected store has role "admin" or "editor" |
| `Dashboard.UnknownStoreCannotEdit` | app/dashboard/page.tsx:101-102 | a store with no option yields role "viewer" and no edit permission |
| `Wrappers.Option.GetOr` | app/dashboard/page.tsx:35 | the `??` operator: the present value, or the default when the value is null or missing |
| `Dashboard.StoryMetaVersion` | app/dashboard/page.tsx:35 | the version when the record and its version are present; 0 exactly when either is absent or the version is 0 |

## Left out

- Floating point: the source computes `factor = remaining / otherSum` as a double and then multiplies it by the field before `Math.round`. The model rounds the exact rational `field * remaining / otherSum`. The two can differ where the exact value is a half and the double product lands just below or above it.
- Number width: JavaScript numbers are doubles, exact for integers up to 2^53, while the model's `int`s are unbounded; the helper has no caller, so nothing in the page bounds its inputs.
- Non-integer, `NaN` or non-numeric inputs: the parameters are typed `number` and the model takes `int`s. The helper has no caller, so nothing in the page restricts them.
- `normalizeStyleRatios` is not called anywhere in the page. The page's `mediaProfile` keys (`style_photo_ratio`, ...) are never edited through it. The model treats the helper on its own.
- Store ids and roles are modelled as strings. Strict `===` between values of different JavaScript types (a numeric `store_id` against the string selection) never matches. The model has no such mixed types.
- `StoryMetaVersion`: the version is modelled as an optional integer. A non-numeric `version` value is passed through by the source and is not modelled.
- Data fetching and feedback submission (`fetchMyStores`, `loadStoreData`, `loadPlans`, `sendPlanFeedback`): backend queries, HTTP, alerts and React state setters.
- `toLocalInputValue`: depends on the platform clock, time zone offset and date formatting.
- `SliderRow` and all rendering: user interface.
- The hard-coded worldview insight record: constant data without logic.
- The login page, the backend client wrapper and the root layout: authentication over an external service, network I/O and static markup.
