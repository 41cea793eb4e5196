# Svelte hydration scanner and assignment auditor, in Dafny

This project models two sequential pieces of Svelte's client runtime and proves
properties of the model.

- **Hydration** (`hydration.dfy`). This is the hydration state: the `hydrating`
  flag, the node buffer `hydrate_nodes` and the tracked start `hydrate_start`.
  It has the setters `set_hydrating` and `set_hydrate_nodes`, the anchor
  resolver `get_start`, and the boundary scanner `hydrate_anchor`.
  - The scanner starts at an opening marker `<!--[-->`. It walks the following
    siblings and counts nested markers. It stops at the first closing marker
    (a comment whose data starts with `]`) met at depth zero.
  - It then stores every sibling strictly between the two markers as the new
    buffer and returns the closing marker.
  - If the siblings run out first, it reports `hydration_mismatch` and fails
    with `HYDRATION_ERROR`.
- **Assignment auditor** (`assign.dfy`). `assign`, `assign_and`, `assign_or`
  and `assign_nullish` apply `=`, `&&=`, `||=` and `??=` to `object[property]`.
  Each then reads the property back and passes both values to `compare`.
  `compare` reports `assignment_value_stale` when they differ and returns its
  first argument, the value of the assignment expression.

Modelling choices:
- **DOM.** The DOM sibling chain is a `seq<Node>`. A node reference is an index
  into it; the next sibling of `i` is `i + 1` and the previous one is `i - 1`.
  A node is either `Comment(data)` (node type 8) or `Other`.
- **Module state.** The module-level variables are the fields of the class
  `HydrationState`. The thrown `HYDRATION_ERROR` is the result
  `Mismatch(location)`.
- **Marker constants.** `constants.js` is not part of this model. START is the
  exact string `"["` (hydration.js:45, :58). END is the character `']'`. The
  proofs and examples use only its role, and every marker in them is built
  from the constant: END is matched on the first character of a comment's
  data, and an empty comment never matches.
- **Warnings.** The warning sink is a ghost log (`Warnings.WarningLog`) that
  records each warning emitted, in order.
- **Objects.** An object is a `Target`. It has a map of stored property values
  and a map of setters for accessor properties. A setter receives the value
  stored so far and the value written, and returns what is stored, so it can
  transform, clamp or reject a write. Any other property is a plain data
  property. The getter returns what was stored, and an absent
  property reads as `undefined`.
- **JavaScript values.** `Value` covers undefined, null, booleans, numbers (as
  reals), strings and object identities. It comes with ECMAScript's
  truthiness, nullishness and the binary operators `&&`, `||` and `??`.

Each wrapper returns `compare`'s first argument (assign.js:16), which is the
value of the assignment expression: `value` for `=`, and `value` or the old
value for `&&=`, `||=` and `??=`. It never returns the read-back. So `assign`
with a flooring setter and `5.7` returns `5.7`, the property holds `5`, and one
stale warning is recorded (`FlooringSetterExample`).

## Model

| member | source | states |
|---|---|---|
| `Hydration.HydrationState.constructor` | packages/svelte/src/internal/client/dom/hydration.js:9-25 | Initially not hydrating, `hydrate_nodes` null and `hydrate_start` undefined. The buffer/start invariant `Consistent()` holds. |
| `Hydration.HydrationState.SetHydrating` | packages/svelte/src/internal/client/dom/hydration.js:11-14 | Sets the flag to `value` and changes nothing else, so `Consistent()` is preserved. |
| `Hydration.HydrationState.SetHydrateNodes` | packages/svelte/src/internal/client/dom/hydration.js:27-31 | Replaces the buffer with `nodes`. The tracked start becomes `nodes[0]`, or none for a null or empty buffer. The flag is unchanged and `Consistent()` holds afterwards. |
| `Hydration.HydrationState.GetStart` | packages/svelte/src/internal/client/dom/hydration.js:33-42 | Gives the sibling just before the tracked start, or the start itself when it is first. Gives nothing when no start is tracked (the source throws there). Reads the state only. |
| `Hydration.HydrationState.HydrateAnchor` | packages/svelte/src/internal/client/dom/hydration.js:44-99 | A non-comment, or a comment whose data is not exactly `[`, is returned unchanged and no state changes. For an opening marker, success returns the first closing marker met at depth 0: a strictly later comment whose data starts with END. The buffer is then exactly the indices strictly between the two markers, in order, and the start is the first of them or none. A non-empty buffer makes `GetStart` yield the opening marker. The scan fails exactly when no depth-0 closing marker follows. On failure it records one `HydrationMismatch(location)` and leaves the buffer and start unchanged. `Consistent()` is preserved on every path. Its loop invariant: depth is never negative, equals opening minus closing markers collected, and no depth-0 closing marker has been passed. |
| `Hydration.MatchingEndIffBalanced` | packages/svelte/src/internal/client/dom/hydration.js:63-85 | A later index is the scanner's matching end if and only if two things hold: it is a closing marker, and the siblings between are balanced. Balanced means as many openers as closers, with no prefix closing more than it opened. |
| `Hydration.WrappedRegionMatches` | packages/svelte/src/internal/client/dom/hydration.js:63-85 | Take any chain made of `pre`, an opening marker, a balanced region `s`, a closing marker and then `post`. The scan started at that opening marker matches the closing marker just after `s`, whatever `pre` and `post` hold, and the buffer is exactly `s`. |
| `Hydration.NestedDepthLaw` | packages/svelte/src/internal/client/dom/hydration.js:65-81 | An opening marker around `n` fully nested marker pairs is matched by the outer closing marker. The buffer is exactly those pairs, is balanced, and holds `n` closing markers. Each inner closing marker is met at depth > 0. |
| `Hydration.NestedAnchorExample` | packages/svelte/src/internal/client/dom/hydration.js:67-84 | Scans `[`, empty comment, `[`, `]`, `]a`. The empty comment is no closing marker, the inner pair is collected, and `]a` closes the region (index 4). The buffer is `[1, 2, 3]` and `GetStart` is the opening marker. |
| `Hydration.EmptyRegionExample` | packages/svelte/src/internal/client/dom/hydration.js:74-77 | An opening marker followed directly by a closing marker gives an empty buffer and no tracked start. |
| `Assign.Target.Put` | packages/svelte/src/internal/client/dev/assign.js:26 | Writing a property stores what the setter makes of the old stored value and the written value (the written value itself for a plain data property). No other property changes. |
| `Assign.Compare` | packages/svelte/src/internal/client/dev/assign.js:11-17 | Always returns `a`. Records exactly one `AssignmentValueStale(property, …)` when `a != b`, and nothing otherwise. |
| `Assign.Assign` | packages/svelte/src/internal/client/dev/assign.js:25-27 | Returns `value`, and only `property` changes, to what the setter stores for `value`. It warns exactly when that result differs from the read-back. So it warns once when the setter changes the value. A plain data property ends up holding `value`, with no warning. |
| `Assign.AssignAnd` | packages/svelte/src/internal/client/dev/assign.js:35-37 | Returns `old && value`. It writes only when the old value is truthy. When the old value is falsy, nothing is written, the old value is returned, and nothing is recorded. It warns exactly when the result differs from the read-back, and never on a plain data property. |
| `Assign.AssignOr` | packages/svelte/src/internal/client/dev/assign.js:45-47 | Returns `old \|\| value`. It writes only when the old value is falsy. When the old value is truthy, nothing is written, the old value is returned, and nothing is recorded. It warns exactly when the result differs from the read-back, and never on a plain data property. |
| `Assign.AssignNullish` | packages/svelte/src/internal/client/dev/assign.js:55-57 | Returns `old ?? value`. It writes only when the old value is null or undefined; otherwise nothing is written and the old value is returned. It warns exactly when the result differs from the read-back, and never on a plain data property. |
| `Assign.PlainAssignExample` | packages/svelte/src/internal/client/dev/assign.js:25-27 | `assign` on a plain data property returns `value`, the property holds `value`, and no warning is recorded. |
| `Assign.FlooringSetterExample` | packages/svelte/src/internal/client/dev/assign.js:11-27 | `assign` of 5.7 through a flooring setter returns 5.7 and stores 5. It records exactly one stale warning naming `"x"`. |
| `Assign.RejectingSetterExample` | packages/svelte/src/internal/client/dev/assign.js:11-27 | `assign` through a setter that rejects every write returns `value` and the property keeps its old value. When the written value differs from the old one, exactly one stale warning naming `"x"` is recorded. |
| `Assign.TruthyOrAssignExample` | packages/svelte/src/internal/client/dev/assign.js:45-47 | `assign_or` on a truthy property returns the old value and stores nothing, with no warning, whatever the setter. |
| `Assign.FalsyAndAssignExample` | packages/svelte/src/internal/client/dev/assign.js:35-37 | `assign_and` on a falsy property returns the old value and stores nothing, with no warning, whatever the setter. |
| `Assign.MissingNullishAssignExample` | packages/svelte/src/internal/client/dev/assign.js:55-57 | `assign_nullish` on a missing plain property writes `value` and returns it, with no warning. |

## Left out

- The real DOM (`nodeType`, `nextSibling`, `previousSibling`, `parentNode`) is replaced by one sibling sequence indexed by position. All node references, including those passed to `set_hydrate_nodes`, are positions in that one sequence.
- The `DEV` switch, the `__svelte_meta` lookup on the parent and the `file:line:column` formatting (hydration.js:87-95) are diagnostics only. The location is an optional opaque string passed to `HydrateAnchor`.
- `warnings.js` and `sanitize_location` (`location.js`) are foreign calls and are not part of this model. Warnings are appends to a ghost log, and the location is recorded as passed, without sanitising.
- Exception unwinding and the caller that catches `HYDRATION_ERROR` are left out. The failure is the `Mismatch` result. `GetStart` on an unset start returns `None` instead of throwing a `TypeError`.
- JavaScript `!==` edge cases (NaN, -0), getters with side effects, getters that throw, and proxies are left out. They involve floating-point and host-object semantics. Numbers are exact reals and NaN is absent.
- The constant `HYDRATION_END` is taken to be `']'`, because `constants.js` is not part of this model.
- Tree-shaking notes (hydration.js:5-8) have no behaviour to model.
