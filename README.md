# Default Image Settings — a Dafny model of the settings-field callbacks

The plugin adds three fields to the host's media settings page. Each field shows a select of
choices with the stored default marked. This project models the render callbacks of
`DEFIS_Admin` as functions and methods over explicit inputs, and proves what they promise.

- **Default Size.** The filtered size list (key => label) comes first. Each label gets a
  suffix built from the size's width, height and crop flag. Each of the three values comes
  from the host's additional-image-size registry when that entry is non-empty, and otherwise
  from the options `<size>_size_w`, `<size>_size_h` and `<size>_crop`. The suffix is
  ` &ndash; ` followed by `absint(w) &times; absint(h)` and/or `cropped`, joined with `, `.
- **Default Link Type.** Four fixed choices: file, post, custom, none. An absent option
  reads as `file`.
- **Default Align.** Four fixed choices: left, center, right and the empty key (None). The
  option is read without a default.

Modules:

- `Php` (`php.dfy`): PHP truthiness of integers, `absint`, integer-to-string conversion with
  its inverse, and `implode`.
- `Choices` (`choices.dfy`): a choice list, the emitted `<option>` triples
  (value, label, selected), and the render loop shared by all three fields.
- `SizeField` (`size_field.dfy`): value resolution, label parts, label decoration, the
  decoration loop (`DecorateSizes`, a method with a loop, proved against the function
  `Decorated`) and the size select.
- `FixedFields` (`fixed_fields.dfy`): the link-type and align selects.

Host inputs become parameters:

- The registry `$_wp_additional_image_sizes` is a `map<string, AdditionalSize>`.
- The numeric options are a `map<string, int>`; an absent option reads as 0 (PHP `false`).
- The stored value of a select is an `Option<string>`.
- The size and align fields read their option without a default. What the host's
  `selected()` comparison sees for an absent option is the parameter `absentValue`.
  WordPress returns `false`, which `selected()` casts to `""`, so there it is `Some("")`.
  `None` models a strict comparison that matches nothing.

## Model

| member | source | states |
|---|---|---|
| `Php.Absint` | includes/admin.php:90 | `absint` yields the absolute value, which is 0 exactly when the input is falsy |
| `Php.DecimalString` | includes/admin.php:90 | an integer is printed as a canonical decimal numeral (digits only, no leading zero, "0" only for 0) |
| `Php.DecimalRoundTrip` | includes/admin.php:90 | reading back the printed numeral gives the number printed |
| `Php.DecimalStringInjective` | includes/admin.php:90 | different numbers print differently |
| `Php.Implode` | includes/admin.php:98 | joining no parts gives the empty string, joining one part gives that part; otherwise the result starts with the first part and ends with the last |
| `Php.ImplodeAppend` | includes/admin.php:98 | joining one more part appends the separator and that part, so the parts appear in order with the separator between neighbours |
| `Choices.ReadOption` | includes/admin.php:127 | `get_option` yields the stored value when there is one and exactly the fallback when there is none: `file` for the link type (line 127), the absent-read value for the size and align reads (lines 103 and 151) |
| `Choices.Render` | includes/admin.php:106-107 | one option per choice, in list order; its value is the key, its text the label; it is selected iff its key equals the current value |
| `Choices.SelectedCountOfRender` | includes/admin.php:106-107 | over distinct keys, exactly one option is selected when the current value is a key, none when it is absent or matches no key |
| `Choices.AtMostOneSelected` | includes/admin.php:107 | over distinct keys, no two options are both selected |
| `Choices.UnmatchedSelectsNone` | includes/admin.php:107 | a current value matching no key selects no option |
| `SizeField.AdditionalEntry` | includes/admin.php:63-80 | the width, height or crop entry of the size's registry record, by attribute; 0 (empty) when the size has no record |
| `SizeField.OptionKey` | includes/admin.php:67-83 | the option name of a size attribute starts with the size name and ends in `w`, `h` or `p` according to the attribute (`_size_w`, `_size_h`, `_crop`) |
| `SizeField.NumericOption` | includes/admin.php:67-83 | a stored option reads as its stored value; an absent option reads as 0 (`false`) |
| `SizeField.Resolve` | includes/admin.php:63-84 | the additional-size entry is used when non-empty, else the `<size>_size_w`/`_size_h`/`_crop` option; the result is truthy iff either source is |
| `SizeField.ResolvePrecedence` | includes/admin.php:63-84 | each resolved value is the registry record's entry of that name when non-zero, else the stored `<size>_size_w`, `<size>_size_h` or `<size>_crop` option, else 0 |
| `SizeField.LabelParts` | includes/admin.php:86-95 | the dimension part is present iff width or height is truthy; "cropped" iff crop is truthy; at most two parts, the dimension part first |
| `SizeField.DecoratedLabel` | includes/admin.php:97-99 | the original label is always a prefix; the label is unchanged iff there are no parts |
| `SizeField.DecoratedLabelCases` | includes/admin.php:87-99 | the four possible labels: unchanged, ` &ndash; W &times; H`, ` &ndash; cropped`, ` &ndash; W &times; H, cropped` |
| `SizeField.DimensionPartReadsBack` | includes/admin.php:90 | the dimension part is a numeral, ` &times; ` and a numeral, and it reads back as `absint(width)` and `absint(height)` |
| `SizeField.DimensionPartParses` | includes/admin.php:90 | any two canonical numerals joined by ` &times; ` read back as the two numbers |
| `SizeField.DimensionPartInjective` | includes/admin.php:89-91 | the dimension part determines the absolute width and height it was printed from |
| `SizeField.Decorated` | includes/admin.php:61-100 | after the loop the keys and their order are those of the filtered list; each label is its own label decorated with its own size's resolved values |
| `SizeField.DecorateEntry` | includes/admin.php:62-99 | one pass of the loop body turns a label into that label decorated with the size's resolved width, height and crop |
| `SizeField.DecoratedKeepsKeysAndPrefixes` | includes/admin.php:61-98 | decoration keeps distinct keys distinct and each original label a prefix of its new label |
| `SizeField.OptionKeyInjective` | includes/admin.php:67-83 | the option names `<size>_size_w`, `<size>_size_h`, `<size>_crop` determine size and attribute, so different sizes never share an option |
| `SizeField.DecorationIsLocal` | includes/admin.php:61-99 | a size's decorated label depends only on its own registry record and its own three options |
| `SizeField.OtherSizeOptionIrrelevant` | includes/admin.php:61-99 | storing any option of a different size leaves a size's decorated label unchanged |
| `SizeField.DecorateSizes` | includes/admin.php:61-100 | the decoration loop yields exactly `Decorated` of the filtered list |
| `SizeField.RenderSizeField` | includes/admin.php:102-109 | the size select lists the filtered sizes in order with decorated labels; an option is selected iff its key is the stored (or absent-read) default |
| `SizeField.FilteredOutSizeNotOffered` | includes/admin.php:54-108 | a size the filter removed is neither offered nor selected, even when it is the stored default |
| `SizeField.MediumResolves` | includes/admin.php:63-84 | with no registry record for medium, its values are read from `medium_size_w`, `medium_size_h` and `medium_crop` |
| `SizeField.MediumLabelExample` | includes/admin.php:54-99 | medium with no registry record and options 300, 300, 0 is labelled "Medium &ndash; 300 &times; 300" |
| `SizeField.CroppedLabelExample` | includes/admin.php:86-99 | a size resolved to width 150, height 150 and crop 1 gets the suffix " &ndash; 150 &times; 150, cropped" |
| `FixedFields.RenderLinkTypeField` | includes/admin.php:118-135 | options file, post, custom, none in that order, labelled Media File, Attachment Page, Custom URL, None; an option is selected iff its key is the stored link type, or `file` when none is stored |
| `FixedFields.LinkTypeSelection` | includes/admin.php:127-131 | exactly one link type is selected when nothing or a link type is stored, none otherwise |
| `FixedFields.LinkTypeDefaultsToFile` | includes/admin.php:127 | with nothing stored, only "Media File" is selected |
| `FixedFields.LinkTypeCustomExample` | includes/admin.php:119-132 | a stored `custom` gives the four options in order with only `custom` selected |
| `FixedFields.RenderAlignField` | includes/admin.php:142-159 | options left, center, right, "" in that order, labelled Left, Center, Right, None; an option is selected iff its key equals the stored value (absent read as `absentValue`) |
| `FixedFields.AlignSelection` | includes/admin.php:151-155 | exactly one alignment is selected when the compared value is one of the four keys, none otherwise |
| `FixedFields.AlignAbsent` | includes/admin.php:151-155 | with nothing stored, "None" is the one selected option when an absent option compares as `""`, and nothing is selected when it compares as no value |

## Left out

- Hook and settings registration (`add_action` in the constructor, `add_settings_section` and `add_settings_field` in `init_settings`): these are host calls with no behaviour of their own.
- The bootstrap in default-image-settings.php: the `is_admin()` branch, `require_once`, the memoized `admin()` accessor and the `defis/after_setup` action. This is plugin-lifecycle wiring over host hooks.
- The `image_size_names_choose` filter: its result is the input list `sizes`. Third-party filters are not visible. Its keys are distinct because PHP array keys are, and the lemmas that need this say so.
- Translation (`__`, `esc_html_e`), HTML escaping (`esc_attr`) and echoing the markup: labels are opaque strings, `cropped` is left untranslated, and the control is the sequence of (value, label, selected) triples.
- Option values that are not integers. Non-numeric strings, whose truthiness and `absint` differ in PHP, are not modelled. Neither is a positional (array) crop value, which is read as some non-zero flag. PHP integer overflow in `absint` is not modelled either.
- `selected()`'s string cast is not modelled beyond `absentValue`: stored values and keys are strings already.
