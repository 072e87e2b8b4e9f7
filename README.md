# Flet widgets library — a Dafny model of its widget logic

This project models the behaviour of the widgets of the Flet widgets library
(a Python library of Flet controls) and proves properties of that model. It
covers the state and decisions of the widgets. Drawing, sleeping and the
framework's `update()` calls are not part of it. Each widget's source file
has its own module:

- **TreeView** (`tree_view.dfy`, over the shared node arena `tree_arena.dfy`).
  Nodes live in an arena, and a node refers to its children and its parent by
  position. Each node has a ghost rank that grows from parent to child, which
  rules out cycles, so the recursive searches and walks terminate. The model
  covers:
  - node construction (`id or name`);
  - levels and icon choice;
  - clicks;
  - single and multiple selection;
  - add, remove and move;
  - search by id and by tag, proved against a pre-order listing;
  - expand and collapse of everything.
- **TreeViewProto** and **TreeViewTestProto** do the same for the two
  prototype tree views. The second of them also adds and removes children.
- **Stepper** (`stepper.dfy`) and two prototypes (`steper_proto.dfy`,
  `stepper_events_proto.dfy`), which share `stepper_core.dfy`. Each models:
  - the current step and the completion flag;
  - the events handed to the callbacks;
  - the indicator colour rule;
  - the navigation row.
- **BubbleText** (`bubble_text.dfy`). It models:
  - the markdown-like line formatter;
  - the span scanner, proved to cut the text into consecutive pieces that
    render back to it;
  - the clipboard clean-up;
  - the line-by-line typing, with its code blocks.
- **RestrictedInput** (`restricted_input.dfy`). It models:
  - the built-in patterns, each proved equal to a plain reading of its regex;
  - the custom-validator registry;
  - the validation decision;
  - the border and error look;
  - the validation event.
- **ImageSlider** (`image_slider.dfy`). It models:
  - the current index under Python's `%`;
  - the indicator buttons, held in an array;
  - wrap-around navigation;
  - auto-play steps.
- **TypeWriter** and **SplitText** (`type_writer.dfy`, `split_text.dfy`). Each
  `update()` is recorded as the value or letter row it puts on screen. The
  typing and animation loops are proved to produce exactly these traces.
- **AnimatedLists**, **CircleCard** and **BasicButton**: list rows and their
  indexes, the card's open and closed looks, and the button's toggles.

`wrappers.dfy` holds `Option` and `Result`. `pystr.dfy` holds the Python
string and list operations the widgets rely on:
- `strip`;
- `splitlines`;
- `join`;
- `list.remove`;
- `list.insert`;
- the normalisation of texts (`texts if isinstance(texts, list) else [texts]`).

Conventions:
- A Python exception becomes an error result or a `false` success flag, with
  the state the exception leaves behind. Examples:
  - `list.remove` of a missing element gives ValueError;
  - `_update_ui` after the default completion view gives IndexError;
  - a speed of 0 gives ZeroDivisionError;
  - the registry raises TypeError.
- Callbacks are recorded as the sequence of arguments they receive.
- Fractions are kept as integers where the model computes with them:
  - ImageSlider's opacity and scale in percent;
  - the CircleCard border in tenths.
  BasicButton's hover scale is a `real`, because it is only stored and read back.
- A regex that is not one of the built-in patterns is an oracle parameter.
  The built-in patterns are written out.
- The custom validator registry is an object passed to the input. In Python
  it is a class attribute shared by every input.

Where the code and its documentation differ, the model follows the code:
- In `Stepper.py` the prev and next buttons are built once. Their disabled
  state and label keep their initial values.
- The "complete" event handed to `on_complete` has `is_first` false even
  with one step.
- `_update_ui` raises IndexError once the default completion view has
  replaced the content.
- `_format_spans` searches `text[idx:]`. Its patterns never look behind the
  position they start from, so the model searches the whole text from
  `idx`. Positions are then positions in the whole text.
- `remove_node` never clears the removed node's `parent`. The model keeps the
  stale link.

## Model

| member | source | states |
|---|---|---|
| PyStr.Strip | src/FletWidgetsLibrary/BasicComponents/RestrictedInput.py:95 | `str.strip()`: a slice of the input with only whitespace cut on either side, and no whitespace left at either end |
| PyStr.StripIdempotent | src/FletWidgetsLibrary/BasicComponents/RestrictedInput.py:95 | stripping an already stripped value changes nothing |
| PyStr.SplitLines | src/FletWidgetsLibrary/AnimatedComponents/BubbleText.py:147 | `splitlines()`: the empty text gives no lines, any other text at least one |
| PyStr.SplitLinesHaveNoBreaks | src/FletWidgetsLibrary/AnimatedComponents/BubbleText.py:147 | no line from `splitlines()` holds a line-boundary character |
| PyStr.JoinSplitLines | src/FletWidgetsLibrary/AnimatedComponents/BubbleText.py:110 | for a text whose only boundaries are `\n` and that does not end in one, `"\n".join(text.splitlines())` gives the text back |
| PyStr.NormalizeTexts | src/FletWidgetsLibrary/AnimatedComponents/TypeWriter.py:51 | `texts if isinstance(texts, list) else [texts]`: a single text becomes a one-element list, a list is kept |
| PyList.RemoveFirstContents | src/FletWidgetsLibrary/BasicComponents/TreeView.py:637 | `list.remove(x)` drops exactly one occurrence of `x`, keeping the rest |
| PyList.RemoveFirstUnique | src/FletWidgetsLibrary/BasicComponents/TreeView.py:637 | removing an element from a list without repeats leaves a list without repeats that no longer holds it |
| PyList.InsertPos | src/FletWidgetsLibrary/BasicComponents/TreeView.py:480 | where `list.insert(i, x)` puts `x`, with Python's clamping of negative and too-large indexes |
| PyList.Insert | src/FletWidgetsLibrary/BasicComponents/TreeView.py:480 | `list.insert(i, x)` makes the list one longer, with `x` at the clamped position and the same elements otherwise |
| TreeArena.Arena.NewNode | src/FletWidgetsLibrary/BasicComponents/TreeView.py:27-58 | a new parentless node record is appended; the given children (which had no parent) now point to it; no other node changes |
| TreeArena.Arena.Level | src/FletWidgetsLibrary/BasicComponents/TreeView.py:334-340 | the parent-climbing loop of `get_node_level` returns the node's depth, its number of ancestors |
| TreeArena.Arena.MarkAll | src/FletWidgetsLibrary/BasicComponents/TreeView.py:702-726 | the recursive walk sets `expanded` on exactly the reachable nodes with children, descending only into those |
| TreeArena.CollapseAfterExpand | src/FletWidgetsLibrary/BasicComponents/TreeView.py:702-726 | `collapse_all` after `expand_all` is the same as `collapse_all` alone |
| TreeArena.Arena.Detach | src/FletWidgetsLibrary/BasicComponents/TreeView.py:505-507 | `parent.children.remove(node)` succeeds iff the node is listed; the first occurrence goes and nothing else changes |
| TreeArena.Arena.Attach | src/FletWidgetsLibrary/BasicComponents/TreeView.py:477-482 | the child is appended or inserted into the parent's children and its `parent` set, other parent links unchanged |
| TreeArena.PreOrderCovers | src/FletWidgetsLibrary/BasicComponents/TreeView.py:672-693 | a node is visited by the recursive searches iff it is reachable from the listed nodes |
| TreeArena.ReparentDepth | src/FletWidgetsLibrary/BasicComponents/TreeView.py:632-659 | a node moved under a parent that is not below it ends one level below that parent's old level |
| TreeView.NewTreeNode | src/FletWidgetsLibrary/BasicComponents/TreeView.py:27-58 | `id` is the given id when it is non-empty, else the name; every child gets the new node as `parent`; no other node changes |
| TreeView.FirstTagIcon | src/FletWidgetsLibrary/BasicComponents/TreeView.py:177-191 | the icon of the first tag, in `tags` order, that has a custom icon; none iff no tag has one |
| TreeView.NodeIcon | src/FletWidgetsLibrary/BasicComponents/TreeView.py:177-191 | an explicit icon wins; otherwise the first custom-icon tag; otherwise the folder icon for a node with children, else the file icon |
| TreeView.TreeView.constructor | src/FletWidgetsLibrary/BasicComponents/TreeView.py:96-140 | nothing selected; the selection list is `[]` with multi-selection configured and absent otherwise |
| TreeView.TreeView.GetNodeLevel | src/FletWidgetsLibrary/BasicComponents/TreeView.py:334-340 | 0 for a node without a parent, otherwise the parent's level + 1 |
| TreeView.TreeView.FindNodeById | src/FletWidgetsLibrary/BasicComponents/TreeView.py:672-682 | the first node, in pre-order (a node before its descendants, roots in order), whose id matches; a found node matches and is reachable |
| TreeView.TreeView.FindNodesByTag | src/FletWidgetsLibrary/BasicComponents/TreeView.py:684-693 | every node carrying the tag, in pre-order; a node is listed iff it is reachable and carries the tag |
| TreeView.WithTagMembers | src/FletWidgetsLibrary/BasicComponents/TreeView.py:684-693 | a node is in the tag result of a listing iff it is in the listing and carries the tag |
| TreeView.FirstWithIdFound | src/FletWidgetsLibrary/BasicComponents/TreeView.py:672-682 | an id search result is a member of the listing and carries the id |
| TreeView.TreeView.GetSelectedNodes | src/FletWidgetsLibrary/BasicComponents/TreeView.py:695-700 | with multi-selection the selection list (or empty), otherwise the single selected node (or empty) |
| TreeView.ToggleFlipsMembership | src/FletWidgetsLibrary/BasicComponents/TreeView.py:412-426 | a multi-select click flips the node's membership, keeps every other node's, and keeps the list free of repeats |
| TreeView.ToggleTwice | src/FletWidgetsLibrary/BasicComponents/TreeView.py:412-426 | toggling a node twice restores the selection set (an already selected node moves to the end) |
| TreeView.TreeView.SelectNode | src/FletWidgetsLibrary/BasicComponents/TreeView.py:405-444 | unselectable nodes change nothing; multi-selection toggles membership and reports the list; single selection replaces the node and clears a non-empty list |
| TreeView.TreeView.OnNodeClick | src/FletWidgetsLibrary/BasicComponents/TreeView.py:342-365 | a double click only reports; otherwise a node with children flips `expanded` and reports the expand or collapse, then a selectable node is selected (multi when ctrl or configured) with the selection callback, the other selection field handled as in `select_node` |
| TreeView.TreeView.AddNode | src/FletWidgetsLibrary/BasicComponents/TreeView.py:471-501 | no parent: appended to the roots; with a parent: appended or inserted at the clamped index, `parent` set, the parent expanded; one more list entry in all |
| TreeView.FirstRootWithId | src/FletWidgetsLibrary/BasicComponents/TreeView.py:519-523 | the position of the first root whose id matches, or none when no root has it |
| TreeView.TreeView.RemoveNode | src/FletWidgetsLibrary/BasicComponents/TreeView.py:503-526 | a child leaves its parent's list (ValueError when not listed); a root removes the first root with the same id; the stale `parent` link is kept |
| TreeView.TreeView.MoveNode | src/FletWidgetsLibrary/BasicComponents/TreeView.py:632-659 | fails iff the node is not in the list that should hold it; otherwise it leaves exactly one list, is appended to the new parent's children, the parent is expanded, the entry count is unchanged and its level is the parent's + 1 |
| TreeView.TreeView.TakeOut | src/FletWidgetsLibrary/BasicComponents/TreeView.py:634-644 | the node leaves its parent's children or the roots (ValueError when absent) and becomes free |
| TreeView.TreeView.ExpandAll | src/FletWidgetsLibrary/BasicComponents/TreeView.py:702-713 | every reachable node with children is expanded; nothing else changes |
| TreeView.TreeView.CollapseAll | src/FletWidgetsLibrary/BasicComponents/TreeView.py:715-726 | every reachable node with children is collapsed; nothing else changes |
| TreeViewProto.NewTreeNode | src/FletWidgetsLibrary/In_Testing/TreeView/TreeView.py:5-15 | the node is built with the given children, each of which gets it as `parent` |
| TreeViewProto.TreeView.constructor | src/FletWidgetsLibrary/In_Testing/TreeView/TreeView.py:17-23 | nothing is selected |
| TreeViewProto.TreeView.GetNodeLevel | src/FletWidgetsLibrary/In_Testing/TreeView/TreeView.py:84-90 | 0 for roots, the parent's level + 1 otherwise |
| TreeViewProto.TreeView.OnNodeClick | src/FletWidgetsLibrary/In_Testing/TreeView/TreeView.py:92-106 | `expanded` flips only for nodes with children (reported to `on_node_expand`), and the clicked node becomes selected |
| TreeViewProto.TreeView.SelectNode | src/FletWidgetsLibrary/In_Testing/TreeView/TreeView.py:118-130 | the node becomes the one selected node |
| TreeViewProto.TreeView.ExpandAll | src/FletWidgetsLibrary/In_Testing/TreeView/TreeView.py:132-141 | every reachable node with children is expanded, the walk descending only into those |
| TreeViewProto.TreeView.CollapseAll | src/FletWidgetsLibrary/In_Testing/TreeView/TreeView.py:143-152 | every reachable node with children is collapsed, the walk descending only into those |
| TreeViewTestProto.NewTreeNode | src/FletWidgetsLibrary/In_Testing/TreeView/test/Treevieww.py:5-15 | the node is built with the given children, each of which gets it as `parent` |
| TreeViewTestProto.TreeView.constructor | src/FletWidgetsLibrary/In_Testing/TreeView/test/Treevieww.py:17-30 | nothing is selected |
| TreeViewTestProto.TreeView.GetNodeLevel | src/FletWidgetsLibrary/In_Testing/TreeView/test/Treevieww.py:130-136 | 0 for roots, the parent's level + 1 otherwise |
| TreeViewTestProto.TreeView.OnNodeClick | src/FletWidgetsLibrary/In_Testing/TreeView/test/Treevieww.py:138-151 | `expanded` flips only for nodes with children, and the clicked node always becomes selected |
| TreeViewTestProto.TreeView.SelectNode | src/FletWidgetsLibrary/In_Testing/TreeView/test/Treevieww.py:169-184 | the node becomes the one selected node |
| TreeViewTestProto.TreeView.AddChildNode | src/FletWidgetsLibrary/In_Testing/TreeView/test/Treevieww.py:186-205 | the node is appended at the end of the parent's children, gets it as `parent`, the parent ends expanded, and its level is the parent's + 1 |
| TreeViewTestProto.TreeView.RemoveNode | src/FletWidgetsLibrary/In_Testing/TreeView/test/Treevieww.py:207-223 | a child leaves its parent's children (ValueError when not listed); a root is left alone |
| TreeViewTestProto.TreeView.ExpandAll | src/FletWidgetsLibrary/In_Testing/TreeView/test/Treevieww.py:442-452 | every reachable node with children is expanded |
| TreeViewTestProto.TreeView.CollapseAll | src/FletWidgetsLibrary/In_Testing/TreeView/test/Treevieww.py:454-463 | every reachable node with children is collapsed |
| StepperCore.EventAt | src/FletWidgetsLibrary/BasicComponents/Stepper.py:252-265 | the event carries the kind, step, total and `completed`; `is_first` iff step 0, `is_last` iff the last step |
| StepperCore.Sent | src/FletWidgetsLibrary/BasicComponents/Stepper.py:261-265 | an event reaches `on_event` only when a handler was given |
| StepperCore.DotAt | src/FletWidgetsLibrary/BasicComponents/Stepper.py:139-146 | completed colour below the current step, active at it, inactive above; the title is lit unless inactive |
| StepperCore.DotRowCounts | src/FletWidgetsLibrary/BasicComponents/Stepper.py:137-176 | for a current step in range: `current` completed dots, exactly one active dot, the rest inactive |
| StepperCore.BuildDots | src/FletWidgetsLibrary/BasicComponents/Stepper.py:137-176 | the loop builds one dot per step, in step order |
| StepperCore.NavigationAt | src/FletWidgetsLibrary/In_Testing/Steper/Steper.py:194-209 | "Anterior" is disabled iff on step 0; the forward label is "Finalizar" iff on the last step, else "Siguiente" |
| Stepper.CompletionEvent | src/FletWidgetsLibrary/BasicComponents/Stepper.py:216-250 | the event given to `on_complete` is a completed "complete" event with `is_last` set and `is_first` unset |
| Stepper.Stepper.constructor | src/FletWidgetsLibrary/BasicComponents/Stepper.py:74-135 | step 0, not completed, the prev button disabled, and one "change" event dispatched |
| Stepper.Stepper.Dispatch | src/FletWidgetsLibrary/BasicComponents/Stepper.py:252-265 | appends the event describing the current state, changing nothing else |
| Stepper.Stepper.UpdateUi | src/FletWidgetsLibrary/BasicComponents/Stepper.py:185-197 | the dots show the current step; it fails (IndexError) once the completion view has replaced the content |
| Stepper.Stepper.PrevStep | src/FletWidgetsLibrary/BasicComponents/Stepper.py:199-204 | a no-op at step 0; otherwise one step back, then "prev" and "change" |
| Stepper.Stepper.NextStep | src/FletWidgetsLibrary/BasicComponents/Stepper.py:206-214 | below the last step one step forward, then "next" and "change"; at the last step the step stays and `_on_complete` runs |
| Stepper.Stepper.OnComplete | src/FletWidgetsLibrary/BasicComponents/Stepper.py:216-250 | `completed` set, "complete" dispatched, `on_complete` called once, or the default completion view shown without one |
| Stepper.ThreeNextsCompleteOnce | src/FletWidgetsLibrary/BasicComponents/Stepper.py:206-250 | with three steps, three `next_step` calls end at step 2 having called `on_complete` exactly once |
| SteperProto.IndicatorAt | src/FletWidgetsLibrary/In_Testing/Steper/Steper.py:133-192 | dots at even positions, coloured by the step rule and checked when completed; connectors at odd positions |
| SteperProto.BuildIndicators | src/FletWidgetsLibrary/In_Testing/Steper/Steper.py:133-192 | the row holds 2n - 1 controls for n steps, each as `IndicatorAt` says |
| SteperProto.IndicatorDots | src/FletWidgetsLibrary/In_Testing/Steper/Steper.py:133-192 | reading the dots back from the row gives the same dot row as the other steppers, with connectors between them |
| SteperProto.Stepper.constructor | src/FletWidgetsLibrary/In_Testing/Steper/Steper.py:74-131 | step 0, not completed, no handler called, prev disabled |
| SteperProto.Stepper.UpdateUi | src/FletWidgetsLibrary/In_Testing/Steper/Steper.py:211-230 | returns at once when completed; otherwise rebuilds the row and navigation and hands the step to `on_step_change` |
| SteperProto.Stepper.PrevStep | src/FletWidgetsLibrary/In_Testing/Steper/Steper.py:232-235 | a no-op at 0; otherwise one step back |
| SteperProto.Stepper.NextStep | src/FletWidgetsLibrary/In_Testing/Steper/Steper.py:237-245 | one step forward below the last; at the last, `on_complete` is called when given, and the stepper is marked completed |
| SteperProto.Stepper.OnComplete | src/FletWidgetsLibrary/In_Testing/Steper/Steper.py:247-263 | marks the stepper completed |
| SteperProto.ThreeNextsCompleteOnce | src/FletWidgetsLibrary/In_Testing/Steper/Steper.py:237-263 | three steps: three nexts call `on_complete` once and report steps 1 and 2; a fourth calls it again |
| StepperEventsProto.Stepper.constructor | src/FletWidgetsLibrary/In_Testing/Steper/main.py:72-118 | step 0, not completed, and one "change" event for step 0 |
| StepperEventsProto.Stepper.Dispatch | src/FletWidgetsLibrary/In_Testing/Steper/main.py:228-241 | appends the event built from the current state |
| StepperEventsProto.Stepper.UpdateUi | src/FletWidgetsLibrary/In_Testing/Steper/main.py:178-190 | dots and navigation show the current step; it fails (IndexError) once the completion view replaced the content |
| StepperEventsProto.Stepper.PrevStep | src/FletWidgetsLibrary/In_Testing/Steper/main.py:192-197 | never below 0; a move dispatches "prev" then "change" |
| StepperEventsProto.Stepper.NextStep | src/FletWidgetsLibrary/In_Testing/Steper/main.py:199-207 | never past the last index; a move dispatches "next" then "change"; at the last step it completes |
| StepperEventsProto.Stepper.OnComplete | src/FletWidgetsLibrary/In_Testing/Steper/main.py:209-226 | `completed` is set before "complete" is dispatched, so that event has `completed` and `is_last` |
| StepperEventsProto.ThreeNextsThenPrev | src/FletWidgetsLibrary/In_Testing/Steper/main.py:192-241 | three steps: the event sequence of three nexts ends with a completed "complete" event; a prev afterwards fails |
| BubbleText.FormatSource | src/FletWidgetsLibrary/AnimatedComponents/BubbleText.py:22-32 | `format` loses nothing: heading and bullet lines give back the stripped line, span lines the line itself; a span line is exactly one without the four prefixes |
| BubbleText.Scheme | src/FletWidgetsLibrary/AnimatedComponents/BubbleText.py:17 | `https?://` at a position: where the scheme ends |
| BubbleText.LinkRender | src/FletWidgetsLibrary/AnimatedComponents/BubbleText.py:17 | a bare link is the whole match, starts with `http://` or `https://` and has no whitespace |
| BubbleText.MdLinkRender | src/FletWidgetsLibrary/AnimatedComponents/BubbleText.py:16 | a markdown link match is `[text](url)` with no newline in the text and no whitespace in the url |
| BubbleText.CodeRender | src/FletWidgetsLibrary/AnimatedComponents/BubbleText.py:20 | inline code is its text between backquotes, without backquote or newline |
| BubbleText.BoldRender | src/FletWidgetsLibrary/AnimatedComponents/BubbleText.py:18 | bold text is its text between `**` pairs, without newline |
| BubbleText.ItalicRender | src/FletWidgetsLibrary/AnimatedComponents/BubbleText.py:19 | italic text is its text between underscores, without underscore or newline |
| BubbleText.CloseFrom | src/FletWidgetsLibrary/AnimatedComponents/BubbleText.py:18-20 | where a lazy `(.*?)c` closes: the first `c` with no newline before it |
| BubbleText.SearchFound | src/FletWidgetsLibrary/AnimatedComponents/BubbleText.py:38-42 | `re.search` reports a position where the pattern matches |
| BubbleText.SearchLeftmost | src/FletWidgetsLibrary/AnimatedComponents/BubbleText.py:38-42 | `re.search` is leftmost: the pattern matches nowhere before the reported start |
| BubbleText.EarliestChoice | src/FletWidgetsLibrary/AnimatedComponents/BubbleText.py:44-49 | `min(matches, key=start)`: none iff no pattern matched, else the smallest start, ties to the earlier pattern |
| BubbleText.FirstMatchRender | src/FletWidgetsLibrary/AnimatedComponents/BubbleText.py:36-55 | the chosen match stands for exactly the slice of text it covers |
| BubbleText.SpansShape | src/FletWidgetsLibrary/AnimatedComponents/BubbleText.py:34-88 | no plain span is empty and no two plain spans are adjacent |
| BubbleText.SpansRender | src/FletWidgetsLibrary/AnimatedComponents/BubbleText.py:34-88 | the spans render back to the text: gaps and matches cut it into consecutive pieces |
| BubbleText.FormatSpans | src/FletWidgetsLibrary/AnimatedComponents/BubbleText.py:34-88 | the loop terminates with the spans `SpansOf(text)`, which render back to the text; empty input gives no spans |
| BubbleText.Clean | src/FletWidgetsLibrary/AnimatedComponents/BubbleText.py:126 | `re.sub(r"[*#`]", "", s)` is never longer than the input |
| BubbleText.CleanContents | src/FletWidgetsLibrary/AnimatedComponents/BubbleText.py:126 | no markup character is left and every other character is kept as often as it occurred |
| BubbleText.CleanIdempotent | src/FletWidgetsLibrary/AnimatedComponents/BubbleText.py:126 | cleaning twice is cleaning once |
| BubbleText.CleanJoin | src/FletWidgetsLibrary/AnimatedComponents/BubbleText.py:110-126 | cleaning the joined texts cleans each text and keeps the `\n` separators |
| BubbleText.Step | src/FletWidgetsLibrary/AnimatedComponents/BubbleText.py:147-199 | one line of `_type_text`: a control is added unless a block is open, and a fence toggles the block |
| BubbleText.StepDivider | src/FletWidgetsLibrary/AnimatedComponents/BubbleText.py:151-156 | outside a block a `---` line adds a divider |
| BubbleText.StepFence | src/FletWidgetsLibrary/AnimatedComponents/BubbleText.py:159-175 | a fence outside a block opens one with an empty code box; inside it closes the block |
| BubbleText.StepInCode | src/FletWidgetsLibrary/AnimatedComponents/BubbleText.py:177-190 | inside a block a non-fence line is added to the gathered code with `\n` |
| BubbleText.StepPlain | src/FletWidgetsLibrary/AnimatedComponents/BubbleText.py:192-199 | outside a block any other line adds the control it is typed into |
| BubbleText.CodeBlockText | src/FletWidgetsLibrary/AnimatedComponents/BubbleText.py:177-190 | inside a block the non-fence lines are gathered into the code box, each followed by `\n` |
| BubbleText.CodeBlockBox | src/FletWidgetsLibrary/AnimatedComponents/BubbleText.py:159-190 | a fence followed by a block's lines leaves one code box holding those lines, each followed by `\n` |
| BubbleText.Bubble.constructor | src/FletWidgetsLibrary/AnimatedComponents/BubbleText.py:92-123 | the texts are normalised and the content text is their `\n` join |
| BubbleText.Bubble.CopyToClipboard | src/FletWidgetsLibrary/AnimatedComponents/BubbleText.py:125-131 | the copied text is the cleaned content text, i.e. each cleaned text joined by `\n` |
| BubbleText.Bubble.DidMount | src/FletWidgetsLibrary/AnimatedComponents/BubbleText.py:133-135 | marks the bubble running |
| BubbleText.Bubble.WillUnmount | src/FletWidgetsLibrary/AnimatedComponents/BubbleText.py:137-138 | marks the bubble stopped |
| BubbleText.Bubble.TypeText | src/FletWidgetsLibrary/AnimatedComponents/BubbleText.py:140-202 | the column ends as the lines of `splitlines()` typed one after the other from an empty column |
| BubbleText.Bubble.TypeLoop | src/FletWidgetsLibrary/AnimatedComponents/BubbleText.py:204-208 | an unmounted bubble types nothing; otherwise the column ends showing the last text |
| BubbleText.TypeCodeLine | src/FletWidgetsLibrary/AnimatedComponents/BubbleText.py:177-190 | typing a code line character by character adds the line and `\n` to the code box |
| BubbleText.TypePlainLine | src/FletWidgetsLibrary/AnimatedComponents/BubbleText.py:192-199 | typing a plain line adds one control showing `format` of the whole line |
| RestrictedInput.FirstIndex | src/FletWidgetsLibrary/BasicComponents/RestrictedInput.py:58 | the first occurrence of a character at or after a position, or none |
| RestrictedInput.LastIndex | src/FletWidgetsLibrary/BasicComponents/RestrictedInput.py:58 | the last occurrence of a character before a position, or none |
| RestrictedInput.EmailMatchShape | src/FletWidgetsLibrary/BasicComponents/RestrictedInput.py:58 | the email pattern matches iff the value is word/dot/dash characters, `@`, a domain, `.`, and a final run of word characters |
| RestrictedInput.PhoneMatchShape | src/FletWidgetsLibrary/BasicComponents/RestrictedInput.py:59 | the phone pattern matches iff an optional `+` is followed by 7 to 15 digits |
| RestrictedInput.NumberMatchShape | src/FletWidgetsLibrary/BasicComponents/RestrictedInput.py:60 | the number pattern matches iff an optional `-`, digits, and optionally `.` and digits |
| RestrictedInput.PasswordRule | src/FletWidgetsLibrary/BasicComponents/RestrictedInput.py:63 | the password pattern matches iff at least 6 allowed characters with a letter and a digit among them |
| RestrictedInput.Subclass | src/FletWidgetsLibrary/BasicComponents/RestrictedInput.py:41-50 | a subclass overriding only `validate` keeps the default error message "Entrada inválida." |
| RestrictedInput.PatternName | src/FletWidgetsLibrary/BasicComponents/RestrictedInput.py:97 | `self.pattern or "custom"` |
| RestrictedInput.RegexVerdict | src/FletWidgetsLibrary/BasicComponents/RestrictedInput.py:107-109 | a built-in name uses its table pattern, the empty pattern `.*`, any other string is used as a regex itself |
| RestrictedInput.Decide | src/FletWidgetsLibrary/BasicComponents/RestrictedInput.py:94-111 | no pattern is valid; a registered validator decides with its own message (NotImplementedError without `validate`); otherwise the regex decides, with "Entrada inválida (name)" on failure |
| RestrictedInput.Appearance | src/FletWidgetsLibrary/BasicComponents/RestrictedInput.py:113-119 | grey iff the value is empty, green iff valid and non-empty, red otherwise, with the message or "Entrada inválida." shown only when red |
| RestrictedInput.CustomFirst | src/FletWidgetsLibrary/BasicComponents/RestrictedInput.py:101-104 | a registered validator wins over a built-in pattern of the same name |
| RestrictedInput.RegisteredIsUsed | src/FletWidgetsLibrary/BasicComponents/RestrictedInput.py:85-104 | after registering a class under a name, validating under that name uses it |
| RestrictedInput.EmptyPattern | src/FletWidgetsLibrary/BasicComponents/RestrictedInput.py:97-109 | the empty pattern is named "custom" and accepts exactly the values without a line feed |
| RestrictedInput.EmailAccepts | src/FletWidgetsLibrary/BasicComponents/RestrictedInput.py:58 | "a@b.com" is an email address |
| RestrictedInput.EmailExamples | src/FletWidgetsLibrary/BasicComponents/RestrictedInput.py:58-111 | "a@b.com" is valid under "email"; "abc" is invalid with "Entrada inválida (email)" and shown red |
| RestrictedInput.EmptyValueNeutral | src/FletWidgetsLibrary/BasicComponents/RestrictedInput.py:109-133 | an empty value can be reported invalid while shown grey with no error |
| RestrictedInput.ResubmitSameVerdict | src/FletWidgetsLibrary/BasicComponents/RestrictedInput.py:95 | submitting the same text twice gives the same verdict |
| RestrictedInput.ValidatorRegistry.constructor | src/FletWidgetsLibrary/BasicComponents/RestrictedInput.py:67 | the registry starts empty |
| RestrictedInput.ValidatorRegistry.Register | src/FletWidgetsLibrary/BasicComponents/RestrictedInput.py:84-89 | TypeError and no change for a class not derived from `BaseValidator`; otherwise the name is stored or overwritten |
| RestrictedInput.RestrictedInput.constructor | src/FletWidgetsLibrary/BasicComponents/RestrictedInput.py:69-79 | starts grey with no error text |
| RestrictedInput.RestrictedInput.ValidateInput | src/FletWidgetsLibrary/BasicComponents/RestrictedInput.py:94-135 | decides on the stripped value, shows the matching look and reports (valid, pattern name, value) to `on_validate`; an exception leaves the state as it was |
| ImageSlider.TransitionOf | src/FletWidgetsLibrary/AnimatedComponents/ImageSlider.py:54-65 | "SCALE" and "ROTATION" select their transition; any other name falls back to FADE |
| ImageSlider.FloorMod | src/FletWidgetsLibrary/AnimatedComponents/ImageSlider.py:112 | Python's `%` for a positive length: always in `[0, len)` |
| ImageSlider.FloorModInRange | src/FletWidgetsLibrary/AnimatedComponents/ImageSlider.py:112 | an index already in range is unchanged |
| ImageSlider.ModUnique | src/FletWidgetsLibrary/AnimatedComponents/ImageSlider.py:112 | the remainder is the only `r` in `[0, n)` with `x = q * n + r` |
| ImageSlider.FloorModPeriod | src/FletWidgetsLibrary/AnimatedComponents/ImageSlider.py:112 | adding or removing a whole turn does not change the index |
| ImageSlider.WrapAround | src/FletWidgetsLibrary/AnimatedComponents/ImageSlider.py:125-129 | next from the last image is the first; previous from the first is the last |
| ImageSlider.NextPrevInverse | src/FletWidgetsLibrary/AnimatedComponents/ImageSlider.py:125-129 | previous undoes next and next undoes previous |
| ImageSlider.Mark | src/FletWidgetsLibrary/AnimatedComponents/ImageSlider.py:116-122 | the selected indicator gets the selected colour at full opacity, the others the button colour at 0.4 |
| ImageSlider.OneHighlighted | src/FletWidgetsLibrary/AnimatedComponents/ImageSlider.py:116-122 | after marking, exactly the current indicator is at full opacity and in the selected colour |
| ImageSlider.ImagesSlider.constructor | src/FletWidgetsLibrary/AnimatedComponents/ImageSlider.py:23-94 | index 0, the first image shown, the transition by name, one indicator per image with `data == i` |
| ImageSlider.ImagesSlider.Create | src/FletWidgetsLibrary/AnimatedComponents/ImageSlider.py:35-36 | an empty image list raises ValueError; otherwise a slider at index 0 |
| ImageSlider.ImagesSlider.SetCurrent | src/FletWidgetsLibrary/AnimatedComponents/ImageSlider.py:108-123 | shows `index % len(images)` and highlights exactly its indicator |
| ImageSlider.ImagesSlider.Next | src/FletWidgetsLibrary/AnimatedComponents/ImageSlider.py:125-127 | moves to the next image, wrapping to 0 after the last |
| ImageSlider.ImagesSlider.Prev | src/FletWidgetsLibrary/AnimatedComponents/ImageSlider.py:128-129 | moves to the previous image, wrapping to the last before 0 |
| ImageSlider.ImagesSlider.IndicatorClick | src/FletWidgetsLibrary/AnimatedComponents/ImageSlider.py:152-153 | jumps to the image of the clicked indicator |
| ImageSlider.ImagesSlider.HoverIndicator | src/FletWidgetsLibrary/AnimatedComponents/ImageSlider.py:148-150 | only the hovered indicator changes scale: 1.25 while hovered, 1 otherwise |
| ImageSlider.ImagesSlider.DidMount | src/FletWidgetsLibrary/AnimatedComponents/ImageSlider.py:97-101 | shows image 0 and starts auto-play when asked |
| ImageSlider.ImagesSlider.WillUnmount | src/FletWidgetsLibrary/AnimatedComponents/ImageSlider.py:103-105 | stops the auto-play loop |
| ImageSlider.ImagesSlider.AutoStep | src/FletWidgetsLibrary/AnimatedComponents/ImageSlider.py:177-182 | one auto-play step advances iff still running with a page, and otherwise changes nothing |
| TypeWriter.Prefixes | src/FletWidgetsLibrary/AnimatedComponents/TypeWriter.py:89-96 | typing a text shows one more prefix per update, from the empty text to the whole text |
| TypeWriter.PrefixesGrow | src/FletWidgetsLibrary/AnimatedComponents/TypeWriter.py:89-96 | each update shows exactly one more letter, from "" to the text |
| TypeWriter.TextTrace | src/FletWidgetsLibrary/AnimatedComponents/TypeWriter.py:82-97 | the values `_type_text` shows: every prefix, or only up to the first letter when `speed` is 0 (ZeroDivisionError) |
| TypeWriter.PassTraceAppend | src/FletWidgetsLibrary/AnimatedComponents/TypeWriter.py:104-109 | a pass over two lists is a pass over the first then, unless it raised, over the second |
| TypeWriter.PassTraceLength | src/FletWidgetsLibrary/AnimatedComponents/TypeWriter.py:104-109 | a pass that does not raise makes one update per letter plus one per text |
| TypeWriter.PassTraceEnds | src/FletWidgetsLibrary/AnimatedComponents/TypeWriter.py:104-109 | a pass that does not raise ends showing the last text whole |
| TypeWriter.PassTraceFails | src/FletWidgetsLibrary/AnimatedComponents/TypeWriter.py:89-109 | with speed 0, a pass stops right after the first letter of the first non-empty text |
| TypeWriter.TypeWriter.constructor | src/FletWidgetsLibrary/AnimatedComponents/TypeWriter.py:28-65 | texts normalised, empty value, not running |
| TypeWriter.TypeWriter.DidMount | src/FletWidgetsLibrary/AnimatedComponents/TypeWriter.py:67-73 | marks the widget running |
| TypeWriter.TypeWriter.WillUnmount | src/FletWidgetsLibrary/AnimatedComponents/TypeWriter.py:75-80 | marks the widget stopped |
| TypeWriter.TypeWriter.TypeText | src/FletWidgetsLibrary/AnimatedComponents/TypeWriter.py:82-97 | the value restarts from "" and ends equal to the text, the control mirroring it at every update; speed 0 raises |
| TypeWriter.TypeWriter.TypePass | src/FletWidgetsLibrary/AnimatedComponents/TypeWriter.py:104-109 | types each text once in order, ending on the last text, unless a text raises |
| TypeWriter.TypeWriter.TypeNth | src/FletWidgetsLibrary/AnimatedComponents/TypeWriter.py:105-106 | typing one text of the pass either extends the pass trace by that text's trace or ends the pass with the raise |
| TypeWriter.TypeWriter.LoopTurn | src/FletWidgetsLibrary/AnimatedComponents/TypeWriter.py:101-107 | one pass of the loop succeeds exactly when the pass does not raise, appends one pass trace, and leaves the widget stopped when it was unmounted during that pass |
| TypeWriter.TypeWriter.TypeLoop | src/FletWidgetsLibrary/AnimatedComponents/TypeWriter.py:99-109 | without `loop` one pass; with `loop` passes until unmounted; a raising pass ends the loop |
| SplitText.OffsetOf | src/FletWidgetsLibrary/AnimatedComponents/SplitText.py:65-77 | bottom (0,1), top (0,-1), left (-1,0), right (1,0), anything else (0,1) |
| SplitText.OffsetUnitStep | src/FletWidgetsLibrary/AnimatedComponents/SplitText.py:65-77 | every direction starts the letters exactly one step away from their place |
| SplitText.Frame | src/FletWidgetsLibrary/AnimatedComponents/SplitText.py:79-111 | the row of one letter control per character, the first `k` revealed |
| SplitText.FrameSpells | src/FletWidgetsLibrary/AnimatedComponents/SplitText.py:79-111 | at every stage the row spells the text |
| SplitText.FrameEnds | src/FletWidgetsLibrary/AnimatedComponents/SplitText.py:79-111 | letters start at the direction's offset, invisible, and end in place, opaque |
| SplitText.FrameStep | src/FletWidgetsLibrary/AnimatedComponents/SplitText.py:100-111 | revealing the next letter changes that letter only |
| SplitText.SplitText.constructor | src/FletWidgetsLibrary/AnimatedComponents/SplitText.py:31-56 | texts normalised, not running, empty row |
| SplitText.SplitText.DidMount | src/FletWidgetsLibrary/AnimatedComponents/SplitText.py:58-60 | marks the widget running |
| SplitText.SplitText.WillUnmount | src/FletWidgetsLibrary/AnimatedComponents/SplitText.py:62-63 | marks the widget stopped |
| SplitText.SplitText.AnimateText | src/FletWidgetsLibrary/AnimatedComponents/SplitText.py:79-111 | shows the empty row, then the hidden letters, then one reveal per update, ending with the whole text revealed |
| SplitText.SplitText.AnimatePass | src/FletWidgetsLibrary/AnimatedComponents/SplitText.py:113-122 | animates each text once, in order |
| SplitText.SplitText.AnimateLoop | src/FletWidgetsLibrary/AnimatedComponents/SplitText.py:113-122 | without `loop` one pass; with `loop` passes until unmounted; nothing when not mounted |
| AnimatedLists.ListItem.constructor | src/FletWidgetsLibrary/AnimatedComponents/AnimatedLists.py:19-50 | the row keeps its index, content and colour, and starts at scale 0 |
| AnimatedLists.ListItem.DidMount | src/FletWidgetsLibrary/AnimatedComponents/AnimatedLists.py:52-59 | in an ordered list the index is shown, otherwise the icon: exactly one of them |
| AnimatedLists.ListItem.AnimateDidMount | src/FletWidgetsLibrary/AnimatedComponents/AnimatedLists.py:61-65 | the row grows to scale 1 |
| AnimatedLists.WrapsSnoc | src/FletWidgetsLibrary/AnimatedComponents/AnimatedLists.py:87-95 | wrapping one more item at index `len(items)` keeps rows and items in step |
| AnimatedLists.BuildRows | src/FletWidgetsLibrary/AnimatedComponents/AnimatedLists.py:82-85 | one new row per item, row `i` wrapping item `i` at index `i` |
| AnimatedLists.MountRows | src/FletWidgetsLibrary/AnimatedComponents/AnimatedLists.py:52-59 | after mounting, every row shows the icon or the index as its list kind says |
| AnimatedLists.UnorderedList.constructor | src/FletWidgetsLibrary/AnimatedComponents/AnimatedLists.py:67-80 | tagged as unordered, with one row per item |
| AnimatedLists.UnorderedList.BuildList | src/FletWidgetsLibrary/AnimatedComponents/AnimatedLists.py:82-85 | replaces the rows by one new row per item |
| AnimatedLists.UnorderedList.AddItem | src/FletWidgetsLibrary/AnimatedComponents/AnimatedLists.py:87-95 | appends the item and a new row at index `len(items)`; every row shows its position |
| AnimatedLists.OrdenedList.constructor | src/FletWidgetsLibrary/AnimatedComponents/AnimatedLists.py:97-104 | tagged as ordered, with one row per item |
| AnimatedLists.OrdenedList.BuildList | src/FletWidgetsLibrary/AnimatedComponents/AnimatedLists.py:106-109 | every item is wrapped, `ListItem`s included |
| AnimatedLists.OrdenedList.AddItem | src/FletWidgetsLibrary/AnimatedComponents/AnimatedLists.py:111-119 | a `ListItem` is appended as it is, keeping its own index, others get a new row at `len(items)`; numbering stays positional iff the row's index is the new position |
| AnimatedLists.AddingARowKeepsItsIndex | src/FletWidgetsLibrary/AnimatedComponents/AnimatedLists.py:111-119 | adding a row with index 5 to an empty ordered list leaves numbering that does not follow positions |
| CircleCard.BuildAsWritten | src/FletWidgetsLibrary/AnimatedComponents/CircleCard.py:84-105 | the constructor as written succeeds iff both title and content are given |
| CircleCard.DefaultCardRaises | src/FletWidgetsLibrary/AnimatedComponents/CircleCard.py:84-105 | the defaults raise AttributeError and the icon-only header is never built |
| CircleCard.CircleCard.constructor | src/FletWidgetsLibrary/AnimatedComponents/CircleCard.py:60-131 | the card starts closed: collapsed width, height 60, radius 100, border 0.5, content, divider and title hidden |
| CircleCard.CircleCard.HandleClick | src/FletWidgetsLibrary/AnimatedComponents/CircleCard.py:133-168 | flips `is_open` and applies exactly the open or closed look, then calls the callback with the new state |
| CircleCard.CircleCard.ClickTwice | src/FletWidgetsLibrary/AnimatedComponents/CircleCard.py:133-168 | two clicks restore every visible property |
| BasicButton.Toggle | src/FletWidgetsLibrary/BasicComponents/BasicButton.py:144-186 | `b if current == a else a`: the result is one of the two options |
| BasicButton.ToggleAlternates | src/FletWidgetsLibrary/BasicComponents/BasicButton.py:144-186 | with distinct options, the toggle alternates and twice comes back |
| BasicButton.ToggleSettles | src/FletWidgetsLibrary/BasicComponents/BasicButton.py:144-186 | a value outside both options first becomes `a`, then the toggle stays within the two |
| BasicButton.ToggleParity | src/FletWidgetsLibrary/BasicComponents/BasicButton.py:144-186 | from `a`, after an even number of toggles the value is `a`, after an odd number `b` |
| BasicButton.BasicButton.constructor | src/FletWidgetsLibrary/BasicComponents/BasicButton.py:46-85 | text, colours and icon as given; the style's default colours equal the button's |
| BasicButton.BasicButton.OnHover | src/FletWidgetsLibrary/BasicComponents/BasicButton.py:108-110 | scale is `hover_scale` while hovered, 1 otherwise; nothing else changes |
| BasicButton.BasicButton.SetButtonText | src/FletWidgetsLibrary/BasicComponents/BasicButton.py:115-126 | an empty text is ignored, otherwise it replaces the text |
| BasicButton.BasicButton.SetIcon | src/FletWidgetsLibrary/BasicComponents/BasicButton.py:128-142 | the icon is always replaced, the icon colour only by a non-empty one |
| BasicButton.BasicButton.ToggleIcon | src/FletWidgetsLibrary/BasicComponents/BasicButton.py:144-156 | the icon toggles between `icon1` and `icon2` |
| BasicButton.BasicButton.ToggleColour | src/FletWidgetsLibrary/BasicComponents/BasicButton.py:158-171 | the background toggles and the style's default background follows it |
| BasicButton.BasicButton.ToggleTextColour | src/FletWidgetsLibrary/BasicComponents/BasicButton.py:173-186 | the text colour toggles and the style's default colour follows it |
| BasicButton.BasicButton.ToggleIconTwice | src/FletWidgetsLibrary/BasicComponents/BasicButton.py:144-156 | toggling the icon twice from `icon1` gives `icon1` back |

## Left out

- Drawing, `update()`, `page.run_task`, `asyncio.sleep` and the delays (`speed`, `pause`, per-character sleeps) are not modelled.
  - Auto-play and typing are modelled step by step.
  - Unmounting is observed only between passes of the TypeWriter, SplitText and BubbleText loops.
  - TypeWriter.TypeWriter.TypeLoop and SplitText.SplitText.AnimateLoop with an empty text list and `loop` set: in Python the `while self.running` body then never awaits, so the loop spins without ever giving the event loop a chance to unmount the widget. The model instead ends after `unmountAt + 1` empty passes.
- SplitText's speed rescaling and other floating-point styling (sizes, durations, curves) are not modelled.
- The BasicButton click animation and glow, which run through `asyncio.run`, are not modelled.
- Only the indicator hover of ImageSlider is modelled. The hover effect on its side navigation buttons is not.
- The TreeView dialogs, context menu, rename and properties editors, drag-over colouring and custom renderers are not modelled.
  - These are user-interface flows around the modelled operations.
  - `on_drop_handler` is covered through `MoveNode` and `FindNodeById`.
- TreeView.TreeView.AddNode, TreeView.TreeView.MoveNode and TreeViewTestProto.TreeView.AddChildNode require a node that is not attached elsewhere and a parent that is not below it.
  - Python accepts these cases and builds cyclic or shared structures.
  - The model keeps the tree a forest.
- TreeView.NewTreeNode, TreeViewProto.NewTreeNode and TreeViewTestProto.NewTreeNode require distinct children that have no parent yet. Python's `TreeNode.__init__` also takes children that already hang elsewhere and re-points their `parent`; no call in these files does that.
- TreeView.TreeView.constructor and the prototype constructors require a proper root list: distinct, parentless, acyclic nodes.
- The Stepper constructors require `0 < total`.
  - The source indexes `steps[0]` and raises IndexError for an empty list.
  - The step cards are modelled only by their number.
  - Events carry no reference to the step widget or the stepper.
- ImageSlider.ImagesSlider.constructor requires a non-empty list. ImageSlider.ImagesSlider.Create models the ValueError for the empty one.
- The following parts of RestrictedInput are not modelled:
  - the regular-expression engine for patterns outside the table;
  - pattern values that are neither a string nor None;
  - the instantiation of a validator class;
  - exceptions raised by a custom `validate`.
- `\w` and `\d` are modelled as ASCII classes. Python's are Unicode-wide.
- BubbleText.Bubble.TypeText: the ZeroDivisionError of `speed == 0` is not modelled, since the sleeps are left out.
- BubbleText.Bubble.TypeLoop is stated for a bubble that stays mounted, or is not mounted, for the whole pass.
- Failures of `update()` on an unmounted control are not modelled.
- The demo applications, the OAuth component and the resource files are not modelled. TextFader.py is not part of this model.

## Findings

| source | as written | input that shows it | evidently intended | confidence | as-written member | corrected member |
|---|---|---|---|---|---|---|
| src/FletWidgetsLibrary/AnimatedComponents/CircleCard.py:88-105 | `content.visible` and `title.visible` are set before the `title is not None` test, so a missing title or content raises AttributeError and the icon-only header branch can never run | `CircleCard()` with its defaults `title=None`, `content=None` | title and content are optional, and a card without a title has an icon-only header | not executed | CircleCard.BuildAsWritten | CircleCard.CircleCard.constructor |
