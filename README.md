# fui core in Dafny

fui builds terminal forms, and from the same description command-line
arguments. This project models three parts of it.

- **Suggestion feeders** (`src/feeders.rs`). A feeder answers
  `query(text, position, items_count)` with one page of completions.
  - The list feeder shows each item, keeps the strings whose lower-case form
    contains the text, and pages the result.
  - The filesystem feeder (`DirItems`) works in steps:
    1. it resolves the typed text ("" is `./`, and text starting with `~`
       has every `~` replaced by the home directory);
    2. it stars the last path component (`add_glob`);
    3. it runs a glob matcher, case-sensitive only when the text has an
       upper-case letter;
    4. it drops iterator errors, and in `dirs()` mode it also drops
       non-directories;
    5. it renders each entry as typed or canonicalized, and returns the
       requested page.
- **Fields** (`src/fields/mod.rs`). The `Field` builder has a label, a help
  text, an initial value, validators and a widget manager. The one-line
  label/help annotation is padded to 20 characters.
- **The form** (`src/form.rs`). `FormView` collects fields, counted in a `u8`,
  plus optional submit and cancel callbacks.
  - Validation looks at every field. It returns either the label-to-value map
    or the label-to-errors map. When two fields share a label, the later
    insert wins.
  - Submitting is always consumed. Only a successful validation yields the
    submit callback with the values.
  - Cancelling yields the cancel callback and never validates.
  - The event wrapper routes these inputs: a left mouse press, Enter on one of
    the two dialog buttons (0 is Cancel, 1 is Submit), and Ctrl+F. Other
    mouse presses are ignored. Every other event goes through to the dialog.

The modules are:

- `Wrappers` (`Option`, `Result`);
- `Strings` (the string operations the source takes from Rust's standard
  library);
- `Feeders`;
- `Fields`;
- `Form`.

`Fields.Field` and `Form.FormView` are classes, because the source updates
their fields in place. Validation is a loop over the field index, proved
against the specification function `ValidationResult`.

The filesystem, the home directory and the dialog are parameters:

- a `Glob` function returns a pattern error or the entries the matcher
  yields, and each entry carries what `metadata()` and `fs::canonicalize`
  would answer for it;
- `home` is what the home-directory lookup returns;
- `focus` and `focusAfter` are the dialog's focus before and after it sees
  the event, and `inner` is its answer to a forwarded event.

## Model

| member | source | states |
|---|---|---|
| Strings.IsUpper | src/feeders.rs:109 | Definition: a character is upper case exactly when it lies between 'A' and 'Z' (the ASCII restriction of `char::is_uppercase`). |
| Strings.StartsWith | src/feeders.rs:98 | Definition: the prefix is no longer than the text, and the text's first characters equal it (`str::starts_with`). |
| Strings.LowerChar | src/feeders.rs:279 | Upper-case ASCII letters map to their lower-case letter (+32). Every other character is unchanged. No upper-case letter remains. |
| Strings.ToLower | src/feeders.rs:279 | Keeps the length. Lower-cases each character in place. |
| Strings.AnyUpper | src/feeders.rs:109 | True exactly when some character of the text is an upper-case letter (the `any(is_uppercase)` test). |
| Strings.Contains | src/feeders.rs:279 | True exactly when the needle occurs at some index of the haystack (`str::contains`). |
| Strings.OccursInTail | src/feeders.rs:279 | When the haystack does not start with the needle, the needle occurs in it exactly when it occurs in its tail. |
| Strings.Replace | src/feeders.rs:100 | A one-character text becomes the replacement when it is the character and is kept otherwise. Together with `ReplaceAppend`, this fixes the result: each occurrence is replaced and the other characters stay, in order. Text without the character is returned unchanged. When the replacement does not contain the character, the result does not contain it. |
| Strings.ReplaceAppend | src/feeders.rs:100 | Replacing distributes over concatenation. |
| Strings.LowerExcludesUpper | src/feeders.rs:279 | A needle with an upper-case letter never occurs in a lower-cased string. |
| Feeders.Skip | src/feeders.rs:138 | `skip(n)`: the suffix after `n`, or nothing when `n` exceeds the length. |
| Feeders.Take | src/feeders.rs:139 | `take(n)`: the prefix of length min(n, length). |
| Feeders.Paginate | src/feeders.rs:138-140 | At most `items_count` items. Exactly the slice of the input from `position` to `position + items_count`, both clipped to the length. Item k is input item `position + k`. |
| Feeders.PagesConcatenate | src/feeders.rs:138-140 | Two adjacent pages concatenate to the page that spans both. |
| Feeders.MapSeq | src/feeders.rs:277-278 | Same length. Item k is the function applied to input item k. |
| Feeders.EndsWithSlash | src/feeders.rs:72 | Definition: the path is non-empty and its last character is '/' (`ends_with("/")`). |
| Feeders.SplitPoint | src/feeders.rs:75-76 | The split index lies within the path. No '/' at or after it. A '/' right before it when it is not 0. |
| Feeders.SplitJoin | src/feeders.rs:75-76 | Splitting a directory part (empty or ending in '/') joined to a slash-free name gives back that directory part and that name. |
| Feeders.SplitFacts | src/feeders.rs:72-76 | The path is its directory part followed by its last component. The last component has no '/'. A path ending in '/' has an empty last component. Any other non-empty path has a non-empty one. |
| Feeders.GlobComponent | src/feeders.rs:78-87 | The new last component always contains '*'. It contains no '/' when the old one has none. |
| Feeders.AddGlob | src/feeders.rs:71-92 | Keeps the directory part. Replaces the last component by its globbed form: `*` when empty, `*name*` when it has no star, unchanged otherwise. |
| Feeders.AddGlobIdempotent | src/feeders.rs:71-92 | Adding the glob a second time changes nothing. |
| Feeders.AddGlobTrailingSlash | src/feeders.rs:72-74 | An empty path, or one ending in '/', gets a `*` appended. |
| Feeders.AddGlobWraps | src/feeders.rs:78-84 | A plain last component without a star becomes `*name*` under the same directory. |
| Feeders.AddGlobKeepsStarred | src/feeders.rs:85-86 | A path whose last component already has a star is returned unchanged. |
| Feeders.AddGlobTestEmpty | src/feeders.rs:188 | `""` becomes `*`. |
| Feeders.AddGlobTestRoot | src/feeders.rs:189 | `/` becomes `/*`. |
| Feeders.AddGlobTestHome | src/feeders.rs:190 | `/home/` becomes `/home/*`. |
| Feeders.AddGlobTestWrap | src/feeders.rs:191 | `/home/user/xxx` becomes `/home/user/*xxx*`. |
| Feeders.AddGlobTestLeadingStar | src/feeders.rs:192 | `/home/user/*xxx` is unchanged. |
| Feeders.AddGlobTestTrailingStar | src/feeders.rs:193 | `/home/user/xxx*` is unchanged. |
| Feeders.AddGlobTestRecursiveWrap | src/feeders.rs:194 | `**/xxx` becomes `**/*xxx*`. |
| Feeders.AddGlobTestRecursiveLeadingStar | src/feeders.rs:195 | `**/*xxx` is unchanged. |
| Feeders.AddGlobTestRecursiveTrailingStar | src/feeders.rs:196 | `**/xxx*` is unchanged. |
| Feeders.DirItemsNew | src/feeders.rs:48-54 | Suggests files and directories, as typed paths. |
| Feeders.DirItemsDirs | src/feeders.rs:55-61 | Suggests directories only, as typed paths. |
| Feeders.DirItemsUseFullPaths | src/feeders.rs:63-67 | Full paths switched on. The item type is kept. |
| Feeders.ResolvePath | src/feeders.rs:96-104 | `""` gives `./`. Text not starting with `~` is kept. Text starting with `~` gives the home directory followed by the rest of the text with every further `~` replaced too. No `~` survives when the home path has none. |
| Feeders.SearchPattern | src/feeders.rs:105 | The glob pattern's last component contains a star. Its directory part is that of the resolved path. |
| Feeders.SearchOptions | src/feeders.rs:108-112 | Case-sensitive exactly when the typed text has an upper-case letter. Literal separator not required. Literal leading dot required. |
| Feeders.Keeps | src/feeders.rs:114-127 | Definition of the two filter closures: the iterator item is not an error, its metadata can be read (the unwrap at line 122 succeeds), and in `Dir` mode it is a directory. |
| Feeders.Kept | src/feeders.rs:114-127 | Every kept entry is an error-free match from the input whose metadata is present, and it is a directory in `Dir` mode. |
| Feeders.KeptMembers | src/feeders.rs:114-127 | An entry is kept exactly when the matcher yielded it and it passes both filters. In `All` mode this is every error-free match whose metadata is readable. |
| Feeders.KeptLength | src/feeders.rs:114-127 | The kept list is never longer than the matcher's output. With `KeptMembers` and `KeptAppend`, this fixes the kept list: each passing entry appears once per occurrence, in matcher order. |
| Feeders.KeptAppend | src/feeders.rs:114-127 | Filtering a concatenation concatenates the filtered parts, so kept entries stay in matcher order. |
| Feeders.Readable | src/feeders.rs:114-139 | Definition of when the lazy chain does not panic. It walks the matcher's output until `need` entries have passed both filters. Every found entry it pulls must have readable metadata (line 122). With full paths, every entry that passes must canonicalize (line 131), including entries that `skip` later drops. Entries after the last needed one are never looked at. |
| Feeders.Demand | src/feeders.rs:138-139 | Definition: how many passing entries `skip(position).take(items_count)` pulls. None when `items_count` is 0, because `take(0)` pulls nothing. Otherwise `position + items_count`. |
| Feeders.Render | src/feeders.rs:128-136 | Definition of the `map` closure: the canonical path under full paths, the matched path otherwise. |
| Feeders.ReadableRenders | src/feeders.rs:121-137 | When every metadata and canonicalize call the lazy chain makes succeeds, each of the first `need` kept entries has a canonical path under full paths. |
| Feeders.RenderAll | src/feeders.rs:128-137 | Same length as the page. Each item is the entry's canonical path under full paths, and its matched path otherwise. |
| Feeders.DirQuery | src/feeders.rs:95-144 | A pattern error gives no suggestions. At most `items_count` suggestions. Each suggestion renders an entry the matcher yielded that passes both filters. |
| Feeders.DirQueryWindow | src/feeders.rs:114-140 | The suggestions are exactly the kept entries from `position` to `position + items_count`, in matcher order: their canonical path under full paths, their path otherwise. |
| Feeders.RenderThenPage | src/feeders.rs:128-140 | Rendering a list of renderable entries and then taking a page equals taking the page and then rendering it. |
| Feeders.DirQueryRendersFirst | src/feeders.rs:128-140 | When every kept entry can be rendered, the suggestions equal rendering all kept entries first and then taking the page, which is the order the source uses. |
| Feeders.Matching | src/feeders.rs:279 | Never longer than its input. |
| Feeders.MatchingAppend | src/feeders.rs:279 | Filtering a concatenation concatenates the filtered parts, so order is kept. |
| Feeders.MatchingMembers | src/feeders.rs:279 | A string survives exactly when it is listed and its lower-case form contains the text. |
| Feeders.VecQuery | src/feeders.rs:275-283 | At most `items_count` results. Each is a displayed item whose lower-case form contains the text. |
| Feeders.VecQueryWindow | src/feeders.rs:277-282 | The result is exactly the window from `position` to `position + items_count` of all matching display strings, in list order. |
| Feeders.VecQueryUpperFindsNothing | src/feeders.rs:279 | Because the text is not lower-cased, a text with an upper-case ASCII letter yields no suggestions. |
| Fields.PadRight | src/fields/mod.rs:72-74 | Length is max(width, length). The text is a prefix, and only spaces follow it. |
| Fields.FormatAnnotation | src/fields/mod.rs:70-76 | The label padded with spaces to 20 characters (never truncated). With a non-empty help it is followed by `: ` and the help, and with an empty help by nothing. |
| Fields.Field.constructor | src/fields/mod.rs:40-48 | The given label, widget manager and initial value. Empty help. No validators. |
| Fields.Field.Help | src/fields/mod.rs:49-52 | Help replaced. Every other field unchanged. |
| Fields.Field.Validator | src/fields/mod.rs:53-56 | The validator appended after the existing ones, which stay in order. Every other field unchanged. |
| Form.Data | src/form.rs:161-181 | Definition of the value map the loop fills: start empty, and for each field in order, insert its value under its label when it validates. A later insert replaces an earlier one. |
| Form.Errors | src/form.rs:162-181 | Definition of the error map the loop fills: start empty, and for each field in order, insert its errors under its label when it fails. A later insert replaces an earlier one. |
| Form.DataKeys | src/form.rs:164-181 | The value map's keys are exactly the labels of the fields that validate. |
| Form.ErrorsKeys | src/form.rs:164-181 | The error map's keys are exactly the labels of the fields that fail. |
| Form.DataValue | src/form.rs:174-176 | A valid field that no later valid field with the same label overrides maps its label to its value. |
| Form.ErrorsValue | src/form.rs:177-179 | A failing field that no later failing field with the same label overrides maps its label to its errors. |
| Form.ValidationResult | src/form.rs:160-186 | Ok exactly when every field validates, and then the map covers every label. Otherwise Err with a non-empty map whose keys are exactly the failing labels. |
| Form.ValidationPerField | src/form.rs:160-186 | With distinct labels, on Ok each field's value is under its label. On Err each failing field's errors are under its label, and no passing field's label appears. |
| Form.SubmitResult | src/form.rs:249-262 | Always consumed. A callback exactly when validation succeeds and a submit callback is set, and then it carries the value map. |
| Form.CancelResult | src/form.rs:264-269 | Always consumed. A callback exactly when a cancel callback is set, and then it is the cancel callback. |
| Form.Dispatch | src/form.rs:281-314 | Cancels exactly on Enter with button 0 focused, or on a left press that leaves button 0 focused. Submits exactly on Enter with button 1 focused, on Ctrl+F, or on a left press that leaves button 1 focused. Ignores exactly the other mouse presses, and left presses that leave no button focused. |
| Form.FormView.constructor | src/form.rs:36-50 | No fields. Count 0. No callbacks. |
| Form.FormView.Field | src/form.rs:53-72 | The field appended after the existing ones. The count grows by one. Callbacks unchanged. |
| Form.FormView.SetOnSubmit | src/form.rs:75-80 | A submit callback is set. Nothing else changes. |
| Form.FormView.SetOnCancel | src/form.rs:94-99 | A cancel callback is set. Nothing else changes. |
| Form.FormView.Validate | src/form.rs:160-186 | The loop over `0..field_count` computes `ValidationResult` of the fields. It is Ok exactly when every field validates. |
| Form.FormView.EventSubmit | src/form.rs:249-262 | Returns `SubmitResult` of the fields and the submit callback. |
| Form.FormView.EventCancel | src/form.rs:264-269 | Returns `CancelResult` of the cancel callback. |
| Form.FormView.WrapOnEvent | src/form.rs:281-314 | Cancel intents return `event_cancel`'s result. Submit intents return `event_submit`'s result. Forwarded events return the dialog's answer. Ignored ones return `Ignored`. |

## Left out

- Rendering, widgets, layout and the `cursive` event loop.
  - Callbacks are reduced to what they would do: submit with a value map, or cancel.
  - The closures themselves are not modelled.
  - `title` and the dialog's buttons are not modelled.
- A form field is reduced to its label and its validation outcome.
  - The validators, the widget managers, `Field2`, and reading the value from
    the widget are not part of this model.
  - `validate` downcasts each child to `Field2` and would panic on any other
    view. The model assumes every child is a field.
- The command-line bridge is not modelled. This covers `fields2clap_args` and
  `clap_arg_matches2value` (the body of the latter is a stub returning an
  empty map) and the clap parts of fields.
- `show_errors` is not modelled: its body is commented out.
- The chainable `on_submit` and `on_cancel` are not modelled. They call
  `set_on_submit` and `set_on_cancel` and return the form.
- `Feeder for Rc<Feeder>` is plain delegation and is not modelled.
- `label_with_help_layout` is not modelled: it only places the annotation in
  a layout.
- The example programs are not modelled.
- The filesystem, the glob matcher and `dirs::home_dir` are left to
  parameters. The glob matcher's own matching rules are not modelled.
- The `eprintln!` of each iterator error (src/feeders.rs:116) is not
  modelled. The model only drops the entry, as the filter does.
- Mouse event offset and position are not modelled. The dialog's handling of
  a forwarded event is the parameter `inner`, and its focus changes on a left
  press are `focusAfter`.
- Strings.IsUpper: only ASCII letters count as upper case. Rust's
  `is_uppercase` and `to_lowercase` also handle other Unicode letters.
- Strings.LowerChar: ASCII lowering only, for the same reason.
- Feeders.AddGlob: requires a plain path. That is a path ending in '/', one
  whose last component has a star, or one with no "." or ".." last component
  and no "//" or "/./" just before it. On other paths Rust's
  `Path::components` normalises the text, and that is not modelled. On plain
  paths the branch for a bare "/" last component (src/feeders.rs:79-80) is
  unreachable, because "/" ends in '/'.
- Feeders.DirQuery: requires the home directory whenever the text starts
  with `~`, and requires success from every `metadata()` and
  `fs::canonicalize` call that the lazy iterator chain actually makes. The
  source unwraps these calls and panics otherwise.
- Feeders.DirQuery: paths are `string`s, and `to_str().unwrap()` on non-UTF-8
  paths is not modelled.
- Form.FormView.Field: requires fewer than 255 fields, because `field_count
  += 1` on a `u8` panics on overflow in debug builds; release-build
  wrap-around is not modelled.
- The word "label" is a reserved word in Dafny, so label values are named
  `labelText`.
- Two behaviours of the code are modelled as written:
  - an entry whose metadata cannot be read makes the query panic, through the
    unwrap at src/feeders.rs:122. So `Feeders.DirQuery` requires readable
    metadata rather than dropping such entries;
  - the list feeder lower-cases each item, but not the typed text
    (src/feeders.rs:279). So a text with an upper-case ASCII letter matches
    nothing (`Feeders.VecQueryUpperFindsNothing`). This is an ASCII-only
    statement: Rust's `is_uppercase` also holds for letters that have no
    lower-case mapping, such as U+2102, and such a text can still match.
