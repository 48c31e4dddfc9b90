# L-system grammar, turtle renderer and splitter in Dafny

This project models the core of the `lindenmayer-system` program. That core has three parts:

- **The grammar engine** (`LSystem`). It keeps an alphabet of `(character, action)` constants, an axiom and one deterministic expansion per constant. It maps strings onto the alphabet and rewrites the axiom one generation at a time.
- **The turtle renderer** (`LSystemRenderer`). It interprets a symbol sequence as turtle moves over a cursor `(x, y, heading)` and a stack of saved states. It does this either in full or up to a growing draw index. It also centres the drawing with a bounding-box scan and computes the rectangle and row order of a screenshot.
- **`Util::split`**. It cuts a string at occurrences of a delimiter.

State is immutable. Every operation takes the engine or renderer as a value and returns the updated one. The lines a render draws are returned as a sequence of segments.

Files and modules:

- `base.dfy` (`Base`): `Option`, `Abs`, `Trunc` (C's float-to-int conversion, which rounds toward zero), the predicate `Whole` (a real that is a whole number) and the lemma `AppendAssoc` (concatenation is associative).
- `grammar.dfy` (`Grammar`): `LSystem.cpp`.
- `turtle.dfy` (`Turtle`): the per-symbol transition shared by `RenderStep` and the scan loop of `Center`, and its iteration `Run`.
- `renderer.dfy` (`LSystemRenderer`): `SetupRender`, `RenderNextSteps`, `Render` and `Center`.
- `capture.dfy` (`Capture`): the capture rectangle and row flip of `SaveScreenshot`.
- `split.dfy` (`Split`): `Util::split`.

Modelling choices:

- Single-precision floats are modelled as exact reals.
- Float-to-int casts are modelled with `Trunc`. `fmodf(a, 360)` is the truncated remainder `FmodDegrees`: its sign follows the dividend.
- The forward step `(x + len·cos h, y + len·sin h)` is a caller-supplied function `adv: Advance`.
- `std::stack::top` on an empty stack is undefined. It becomes the precondition `Balanced`: no pop meets an empty stack.
- `GenerateNthAxiom(0)` wraps `n - 1` and recurses without bound. It becomes the precondition `n >= 1`.
- `substr(start)` with `start` past the end throws `std::out_of_range`. It is the `Err(OutOfRange)` result of `Split`.
- Reading pixels and encoding the PNG are function parameters of `SaveScreenshot`. A successful read-back yields one row per line of the rectangle, as `glReadPixels` fills the `w * h` buffer.

Facts about the code that the model keeps: `LSystem.cpp` stores one expansion per constant (`src/LSystem.cpp:68`). The weighted rule lists that `ConfigParser.cpp:52-81` builds are never read by `LSystem.cpp`; `src/main.cpp:147-153` passes one rule string per constant to `SetConstantRule`. `SetupRender` (`src/LSystemRenderer.cpp:333-339`) resets the position, heading and stack but not `m_drawIndex`, so each `RenderNextSteps` call replays from index 0 up to the previous index plus the step count.

## Model

| member | source | states |
|---|---|---|
| Grammar.FirstIndex | src/LSystem.cpp:106 | the `find_if` scan: no index exactly when no constant carries the character; otherwise the index of the first constant that does |
| Grammar.Lookup | src/LSystem.cpp:106-110 | a character maps to a constant exactly when it is registered, and then to a constant of the alphabet carrying it |
| Grammar.SplitIntoConstants | src/LSystem.cpp:102-120 | the old output is kept as a prefix; success iff every character is registered; on success exactly one symbol per character, each the first constant with that character; on failure the first unappended character is unregistered |
| Grammar.SplitNoRollback | src/LSystem.cpp:104-116 | the result does not depend on the vector's earlier contents: the old contents stay in front of what an empty vector would receive, with the same verdict; on failure exactly the symbols of the characters before the first unregistered one stay appended, so nothing is rolled back |
| Grammar.SplitConcat | src/LSystem.cpp:102-120 | mapping `s + t` is mapping `s` and then, only if that succeeded, mapping `t` after it |
| Grammar.AddConstant | src/LSystem.cpp:16-20 | one more constant; a character that was already registered keeps mapping to its earlier constant; a new character maps to the new constant; other characters are unaffected |
| Grammar.LookupExtend | src/LSystem.cpp:16-20 | lookup after appending a constant: shadowed when the character was known, the new constant otherwise, unchanged for other characters |
| Grammar.SetAxiom | src/LSystem.cpp:22-25 | the axiom is extended, never replaced: the old axiom stays a prefix even on failure, and each appended symbol is the lookup of its character; a failure keeps the symbols appended before the first unregistered character, which is the character at the failure position |
| Grammar.SetAxiomTwice | src/LSystem.cpp:22-25 | two successful calls accumulate: setting `s` then `t` equals setting `s + t` |
| Grammar.SetAxiomCanonical | src/LSystem.cpp:22-25 | every symbol the axiom receives is the first constant carrying its character |
| Grammar.SetConstantRule | src/LSystem.cpp:53-72 | success iff the character and every character of the expansion are registered; on failure nothing changes; on success the first constant with the character maps to the expansion and every other entry is unchanged |
| Grammar.Expand | src/LSystem.cpp:37-48 | every produced symbol comes from the rule of some symbol of the input that has a rule |
| Grammar.ExpandAppend | src/LSystem.cpp:37-48 | a pass over a concatenation is the concatenation of the passes, so expansions appear in input order |
| Grammar.ExpandLength | src/LSystem.cpp:37-48 | a pass has length equal to the sum of rule lengths, counting 0 for a symbol without a rule |
| Grammar.Generate | src/LSystem.cpp:27-51 | for a well-formed engine every symbol of every generation is a registered constant |
| Grammar.GenerateLength | src/LSystem.cpp:27-51 | the length of generation n is the sum of rule lengths over generation n - 1 |
| Grammar.BuildersPreserveWellFormed | src/LSystem.cpp:16-72 | the empty engine, `AddConstant`, `SetAxiom` and `SetConstantRule` keep axiom, rule keys and rule bodies inside the alphabet |
| Grammar.SetAxiomWellFormed | src/LSystem.cpp:22-25 | `SetAxiom` appends only registered constants |
| Grammar.SetConstantRuleWellFormed | src/LSystem.cpp:53-72 | a stored rule is keyed by, and expands to, registered constants |
| Grammar.ExpandIdentity | src/LSystem.cpp:37-48 | under rules mapping each constant to itself, a pass over symbols that all have rules is the identity |
| Grammar.IdentityRulesFixAxiom | src/LSystem.cpp:27-51 | under identity rules that cover the axiom, every generation equals the axiom |
| Grammar.DefaultRuleIsIdentity | src/main.cpp:148-153 | the default expansion (the character itself) always succeeds for a registered character and makes its first constant's rule the identity |
| Grammar.ApplyDefaultRules | src/main.cpp:148-153 | applying the default rule for each character leaves alphabet and axiom unchanged |
| Grammar.DefaultRuleStep | src/main.cpp:148-153 | one default rule keeps all rules identities, removes no rule, and gives the character's first constant a rule |
| Grammar.DefaultRulesShape | src/main.cpp:148-153 | after the default rules for a list of characters, all rules are identities and each registered character's first constant has one |
| Grammar.DefaultRulesFixAxiom | src/main.cpp:145-157 | with no configured rules, the defaults make every generation equal to an axiom built by `SetAxiom` |
| Turtle.FmodDegrees | src/LSystemRenderer.cpp:369-376 | `fmodf(a, 360)`: strictly inside (-360, 360), sign of the dividend, differs from `a` by whole turns, and is the identity inside (-360, 360) |
| Turtle.RenderStep | src/LSystemRenderer.cpp:352-393 | per action: moves change only the position, to the advanced one; a draw emits exactly one segment from the old to the new position; turns change only the heading, by the exact sum or difference up to whole turns, keeping it below a full turn and with the sign of that sum or difference (C's truncated `fmodf`, not a floored remainder); no-action changes nothing; a push saves the truncated position and exact heading; a pop restores the top |
| Turtle.ScanStep | src/LSystemRenderer.cpp:116-156 | the separate switch in `Center`'s scan reaches exactly the cursor `RenderStep` reaches |
| Turtle.PushPopRestores | src/LSystemRenderer.cpp:377-389 | push then pop restores the heading exactly and the position only as truncated; the cursor comes back unchanged iff the position was integral |
| Turtle.BalancedPrefix | src/LSystemRenderer.cpp:383-385 | a prefix of a sequence that never pops an empty stack never does either |
| Turtle.Run | src/LSystemRenderer.cpp:407-415 | interpreting a sequence changes the stack depth by pushes minus pops and draws one line per draw symbol |
| Turtle.RunAppend | src/LSystemRenderer.cpp:396-405 | interpreting `s + t` is interpreting `t` from where `s` left off, with the lines of both in order |
| Turtle.DepthAppend | src/LSystemRenderer.cpp:377-389 | stack depth over a concatenation composes |
| LSystemRenderer.SetupRender | src/LSystemRenderer.cpp:333-339 | the cursor goes to the origin with the start heading and an empty stack; nothing else changes, the draw index included |
| LSystemRenderer.Frontier | src/LSystemRenderer.cpp:398-399 | the playback frontier is `drawIndex + steps` clamped to `[0, length]` |
| LSystemRenderer.RenderNextSteps | src/LSystemRenderer.cpp:396-405 | the draw index becomes the clamped frontier; the result is true iff it reached the end; cursor and lines are those of replaying indices 0 up to the frontier from the live cursor, which is not reset; nothing else changes |
| LSystemRenderer.Render | src/LSystemRenderer.cpp:407-415 | every index is stepped in order from the live cursor; the draw index ends at the length; the result is always true |
| LSystemRenderer.BoundsContain | src/LSystemRenderer.cpp:158-161 | the folded box contains every position and never shrinks the starting box |
| LSystemRenderer.BoundsAttained | src/LSystemRenderer.cpp:158-161 | each side of the folded box is the starting side or a visited coordinate |
| LSystemRenderer.ScanBounds | src/LSystemRenderer.cpp:105-162 | the scan ends at the cursor of a full interpretation from the origin, with the box folded over the position after every step |
| LSystemRenderer.Recentre | src/LSystemRenderer.cpp:164-185 | the box and the origin move by the same whole-number offset per axis, so the box keeps its size, and its centre lands within one unit of the window centre; the shift is `(int)`'s truncation toward zero, so the remaining offset keeps the sign of the original one |
| LSystemRenderer.Center | src/LSystemRenderer.cpp:103-186 | the scan from the `FLT_MAX`/`FLT_MIN` sentinels followed by the recentring shift; the cursor is left where the scan ended |
| LSystemRenderer.CenterBoxContainsPath | src/LSystemRenderer.cpp:110-161 | every visited position lies in the scanned box, and the box maxima are never below `FLT_MIN`; moved by the recentring shift, every visited position lies in the stored box |
| LSystemRenderer.SentinelHidesNegativeMaximum | src/LSystemRenderer.cpp:110-114 | for every path whose coordinates all lie below `FLT_MIN` the as-written maxima are `FLT_MIN`, a value no visited position has, while with the corrected sentinel the maxima of a non-empty such path lie below `FLT_MIN` |
| LSystemRenderer.SentinelExample | src/LSystemRenderer.cpp:110-114 | the one-step path to `(-10, -10)`: its as-written `maxX` is `FLT_MIN`, with the corrected sentinel it is -10 |
| LSystemRenderer.CenterIntended | src/LSystemRenderer.cpp:103-186 | `Center` with the maxima starting from the lowest float |
| LSystemRenderer.IntendedBoundsTight | src/LSystemRenderer.cpp:158-161 | with the corrected sentinel, the box of a non-empty path within float range contains it and each side is a visited coordinate |
| Capture.Extent | src/LSystemRenderer.cpp:190-191 | the padded extent is `abs(max - min) + 2 * padding` truncated to an unsigned integer |
| Capture.CaptureSpan | src/LSystemRenderer.cpp:190-214 | per axis: the whole window from 0 when the extent exceeds it, otherwise the extent from `min - padding` converted by truncation toward zero, unclamped; the size never exceeds the window; with padding of at least 2 a fitting span covers `[min, max]` |
| Capture.CaptureRect | src/LSystemRenderer.cpp:190-214 | the rectangle is the two spans computed independently from the stored box |
| Capture.ReverseRows | src/LSystemRenderer.cpp:250-268 | the shuffle loop, shift and final copy leave row i holding original row h - 1 - i |
| Capture.FlipRows | src/LSystemRenderer.cpp:234-271 | a capture taller than two rows is reversed, and any other is left untouched |
| Capture.SaveScreenshot | src/LSystemRenderer.cpp:188-284 | the rectangle read back is the capture rectangle; a failed read-back fails before encoding; otherwise the rows given to the encoder are the read-back reversed when the rectangle is more than two rows high and unchanged otherwise, and the encoder's verdict is the result |
| Split.FindSpec | src/Util.cpp:13 | `find(delim, start)`: the first occurrence at or after `start`, and no result only when there is none |
| Split.SplitFrom | src/Util.cpp:11-25 | a successful loop always yields at least one piece |
| Split.Split | src/Util.cpp:3-28 | empty input gives no pieces; input without the delimiter gives the single whole input; non-empty input that succeeds gives at least one piece |
| Split.SplitFromShape | src/Util.cpp:11-25 | the loop returns exactly the pieces cut at the cursors `start + k * (delim.size() + 1)`: each piece before the last runs from its cursor to the first occurrence found there, and the last is the rest of the input from a cursor where no occurrence is left |
| Split.SplitFromOverruns | src/Util.cpp:20-25 | the loop fails exactly when, after the delimiters found, the next cursor is past the end of the input |
| Split.ShapeWhenFound | src/Util.cpp:13-22 | with an occurrence at `x`, the pieces from `start` are `input[start..x)` followed by the pieces from `start + delim.size() + 1` |
| Split.WeightListCounterexample | src/Util.cpp:22 | splitting "0.5,0.5" at "," gives "0.5", "5", "0.5", which do not join back to the input; the corrected split gives "0.5", "0.5" |
| Split.SplitIntendedFrom | src/Util.cpp:11-25 | with the cursor moved just past each delimiter, the pieces join back to the input with the delimiter and none contains it |
| Split.SplitIntended | src/Util.cpp:3-28 | the corrected split round-trips through `Join` and yields delimiter-free pieces |

## Left out

- Console output (`std::cout`/`std::cerr` messages, `LSystem::Print`, the curve-size warning in `Center`) is not modelled: it has no effect on state.
- `DrawLine`, `SetupGL`, line-width clamping and the colour mode (`m_colorful`, hue from index, `Util::HSV_To_RGB`, which is not part of this model) are left out. They are GL calls or floating-point colour maths.
- `cosf`, `sinf` and `PI` are left out: the trigonometry is the parameter `adv`. Single-precision rounding of every float operation is not modelled either: positions, headings and box sides are exact reals.
- Float-to-integer conversions of values outside the `int` or `unsigned` range are undefined in C++ and are not modelled.
- `GenerateNthAxiom(0)` is excluded by `requires n >= 1`: the unsigned `n - 1` wraps and the recursion does not end.
- Popping an empty stack is undefined (`std::stack::top`). `RenderStep`, `Run`, `RenderNextSteps`, `Render` and `Center` require that it never happens.
- `RenderNextSteps` does not model `int` overflow of `drawIndex + steps`: integers are unbounded.
- Turtle.RenderStep: the segment carries the real endpoints. The integer conversion done by `glVertex2i` inside the drawing primitive is not modelled.
- Capture.SaveScreenshot: the flip works on whole rows, as if the row pitch were the row width `4 * w` bytes. The source stores the pitch in a `Uint16`, so at `w >= 16384` it wraps: at `w == 16384` nothing is flipped (or the capture fails, if `malloc(0)` returns null), and wider captures have their rows garbled. The model does not promise that behaviour; its reversal holds for the source only while `4 * w < 65536`.
- Capture.SaveScreenshot: requires `padding >= 0` and a non-negative window size. For a negative capture origin, the conversion of the negative float to `unsigned int` is undefined in C++; the model returns the truncated negative integer.
- Capture resource handling is not modelled: the `malloc` failure path of the row buffer, `SDL_CreateRGBSurfaceFrom`, and the pixel buffers that are never freed on the failure paths. A failed read-back stands for both the `glReadPixels` error and the surface-creation failure. Rows are whole values: `memcpy` of one row is one element copy.
- The renderer's constructors (`src/LSystemRenderer.cpp:11-51`) and setters are not modelled as operations: a `Renderer` value is built directly. The constructors leave the cursor (`m_x`, `m_y`, `m_currRot`) and the box (`m_minX`, `m_maxX`, `m_minY`, `m_maxY`) uninitialised. A model `Renderer` stands for a renderer whose cursor was set by `SetupRender` or `Center` and whose box was set by `Center`. `Render`, `RenderNextSteps` or `SaveScreenshot` called before then read indeterminate values, which is undefined behaviour and is not modelled.
- `SetAxiom` (`src/LSystemRenderer.cpp:98-101`) assigns through the reference member `m_axiom` (`inc/LSystemRenderer.h:64`): it overwrites the caller's vector, and the renderer sees any later change the caller makes to that vector. In the model, `symbols` is a value owned by the `Renderer`.
- Configuration loading and the weighted rule lists of `ConfigParser` are left out. They are not consumed by `LSystem.cpp`. The default expansion at `src/main.cpp:150` (a rule equal to the character itself) is modelled by `Grammar.ApplyDefaultRules`.
- `inc/Util.h` declares `split(string, char)` while `src/Util.cpp` defines `split(string, string)`. The model takes a string delimiter; the caller's `','` is the one-character case.

## Findings

| source | as written | input that shows it | evidently intended | confidence | as-written member | corrected member |
|---|---|---|---|---|---|---|
| src/Util.cpp:22 | after a delimiter at `x` the cursor advances from the previous cursor by `delim.size() + 1` | `split("0.5,0.5", ",")` gives `["0.5", "5", "0.5"]` | resume just past the delimiter (`start = x + delim.size()`), giving `["0.5", "0.5"]` | high (by proof; not executed) | Split.WeightListCounterexample | Split.SplitIntended |
| src/LSystemRenderer.cpp:111-114 | the maxima start from `numeric_limits<float>::min()`, the smallest positive float | a path whose positions are all `(-10, -10)` gets `maxX == maxY == FLT_MIN` | start from `numeric_limits<float>::lowest()`, so the maxima are visited coordinates | high (by proof; not executed) | LSystemRenderer.SentinelHidesNegativeMaximum | LSystemRenderer.IntendedBoundsTight |
