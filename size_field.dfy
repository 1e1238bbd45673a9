/** The "Default Size" settings field: each size label of the filtered size list is decorated
    with the size's dimensions and crop flag, then rendered as a select of the sizes with the
    stored default marked. */
module SizeField {
  import opened Php
  import opened Choices

  /** One record of the host's additional-image-size registry. Each entry is the PHP value read
      as an integer: a boolean crop is 1 or 0, and a missing entry reads as 0 (it is `empty()`). */
  datatype AdditionalSize = AdditionalSize(width: int, height: int, crop: int)

  /** The three per-size values a label is decorated with. */
  datatype Attribute = Width | Height | Crop

  /** The values resolved for one size. */
  datatype Dimensions = Dimensions(width: int, height: int, crop: int)

  const TIMES := " &times; "
  const NDASH := " &ndash; "
  const PART_SEPARATOR := ", "
  const CROPPED := "cropped"

  /** The built-in size list, before the size-names filter runs. */
  const DEFAULT_SIZES := [
    Choice("thumbnail", "Thumbnail"),
    Choice("medium", "Medium"),
    Choice("large", "Large"),
    Choice("full", "Full Size")
  ]

  /** `$_wp_additional_image_sizes[$size][<attribute>]`: 0 when the size has no record. */
  function AdditionalEntry(additional: map<string, AdditionalSize>, size: string, a: Attribute): (v: int)
    ensures size !in additional ==> v == 0
    ensures size in additional && a == Width ==> v == additional[size].width
    ensures size in additional && a == Height ==> v == additional[size].height
    ensures size in additional && a == Crop ==> v == additional[size].crop
  {
    if size !in additional then 0
    else
      match a
      case Width => additional[size].width
      case Height => additional[size].height
      case Crop => additional[size].crop
  }

  /** The last character of each option-name suffix: `w`, `h`, `p`. */
  function SuffixEnd(a: Attribute): char {
    match a
    case Width => 'w'
    case Height => 'h'
    case Crop => 'p'
  }

  /** The name of the option that stores a size attribute: `<size>_size_w`, `<size>_size_h`
      or `<size>_crop`. It starts with the size name and its last character names the attribute. */
  function OptionKey(size: string, a: Attribute): (key: string)
    ensures |size| < |key| && key[..|size|] == size
    ensures key[|key| - 1] == SuffixEnd(a)
  {
    size + match a
           case Width => "_size_w"
           case Height => "_size_h"
           case Crop => "_crop"
  }

  /** get_option() of a numeric option: an absent option is `false`, which reads as 0. */
  function NumericOption(options: map<string, int>, key: string): (v: int)
    ensures key in options ==> v == options[key]
    ensures key !in options ==> v == 0
  {
    if key in options then options[key] else 0
  }

  /** One attribute of a size: the additional-size entry when it is non-empty, otherwise the
      stored option. The result is therefore truthy exactly when one of the two sources is. */
  function Resolve(additional: map<string, AdditionalSize>, options: map<string, int>,
                   size: string, a: Attribute): (v: int)
    ensures v == AdditionalEntry(additional, size, a) || v == NumericOption(options, OptionKey(size, a))
    ensures Truthy(AdditionalEntry(additional, size, a)) ==> v == AdditionalEntry(additional, size, a)
    ensures Truthy(v) <==>
              Truthy(AdditionalEntry(additional, size, a)) || Truthy(NumericOption(options, OptionKey(size, a)))
  {
    var entry := AdditionalEntry(additional, size, a);
    if Truthy(entry) then entry else NumericOption(options, OptionKey(size, a))
  }

  /** Each resolved value in plain terms: the registry entry of that name when the size has a
      non-zero one, else the stored `<size>_size_w`, `<size>_size_h` or `<size>_crop` option,
      else 0 (`false`). */
  lemma ResolvePrecedence(additional: map<string, AdditionalSize>, options: map<string, int>, size: string)
    ensures ResolveDimensions(additional, options, size).width ==
              if size in additional && additional[size].width != 0 then additional[size].width
              else if size + "_size_w" in options then options[size + "_size_w"] else 0
    ensures ResolveDimensions(additional, options, size).height ==
              if size in additional && additional[size].height != 0 then additional[size].height
              else if size + "_size_h" in options then options[size + "_size_h"] else 0
    ensures ResolveDimensions(additional, options, size).crop ==
              if size in additional && additional[size].crop != 0 then additional[size].crop
              else if size + "_crop" in options then options[size + "_crop"] else 0
  {
    assert OptionKey(size, Width) == size + "_size_w";
    assert OptionKey(size, Height) == size + "_size_h";
    assert OptionKey(size, Crop) == size + "_crop";
  }

  function ResolveDimensions(additional: map<string, AdditionalSize>, options: map<string, int>,
                             size: string): Dimensions {
    Dimensions(Resolve(additional, options, size, Width),
               Resolve(additional, options, size, Height),
               Resolve(additional, options, size, Crop))
  }

  /** The dimension part of a label: `absint(width) &times; absint(height)`. */
  function DimensionPart(width: int, height: int): string {
    DecimalString(Absint(width)) + TIMES + DecimalString(Absint(height))
  }

  /** The dimension part parses back to the absolute width and height it was printed from. */
  lemma DimensionPartReadsBack(width: int, height: int)
    ensures ParseDimensionPart(DimensionPart(width, height)) == Some((Absint(width), Absint(height)))
  {
    DimensionPartParses(DecimalString(Absint(width)), DecimalString(Absint(height)));
    DecimalRoundTrip(Absint(width));
    DecimalRoundTrip(Absint(height));
  }

  /** Reads a dimension part: a numeral, ` &times; `, and a numeral that runs to the end. */
  function ParseDimensionPart(part: string): Option<(nat, nat)> {
    var k := SpanDigits(part);
    if k + |TIMES| <= |part| && part[k..k + |TIMES|] == TIMES && AllDigits(part[k + |TIMES|..])
    then Some((DecimalValue(part[..k]), DecimalValue(part[k + |TIMES|..])))
    else None
  }

  lemma DimensionPartParses(w: string, h: string)
    requires IsDecimal(w) && IsDecimal(h)
    ensures ParseDimensionPart(w + TIMES + h) == Some((DecimalValue(w), DecimalValue(h)))
  {
    var part := w + TIMES + h;
    SpanDigitsOfNumeral(w, TIMES + h);
    assert part == w + (TIMES + h);
    assert part[..|w|] == w;
    assert part[|w|..|w| + |TIMES|] == TIMES;
    assert part[|w| + |TIMES|..] == h;
  }

  /** The suffix parts of a label: the dimension part exactly when width or height is truthy,
      "cropped" exactly when crop is truthy, and when both are present the dimension part first. */
  function LabelParts(d: Dimensions): (parts: seq<string>)
    ensures |parts| <= 2
    ensures DimensionPart(d.width, d.height) in parts <==> Truthy(d.width) || Truthy(d.height)
    ensures CROPPED in parts <==> Truthy(d.crop)
    ensures forall k :: 0 <= k < |parts| ==> parts[k] == DimensionPart(d.width, d.height) || parts[k] == CROPPED
    ensures |parts| == 2 ==> parts[0] == DimensionPart(d.width, d.height) && parts[1] == CROPPED
  {
    assert |DimensionPart(d.width, d.height)| > |CROPPED|;
    var dimension := if Truthy(d.width) || Truthy(d.height) then [DimensionPart(d.width, d.height)] else [];
    dimension + if Truthy(d.crop) then [CROPPED] else []
  }

  /** A label decorated with its parts: unchanged when there are none, otherwise followed by
      ` &ndash; ` and the parts joined with `, `. The original label is always a prefix. */
  function DecoratedLabel(caption: string, d: Dimensions): (r: string)
    ensures |caption| <= |r| && r[..|caption|] == caption
    ensures r == caption <==> LabelParts(d) == []
  {
    var parts := LabelParts(d);
    if parts != [] then caption + NDASH + Implode(PART_SEPARATOR, parts) else caption
  }

  /** The four shapes a decorated label can take, stated directly in the resolved values. */
  lemma DecoratedLabelCases(caption: string, d: Dimensions)
    ensures var dims := Truthy(d.width) || Truthy(d.height);
            DecoratedLabel(caption, d) ==
              if dims && Truthy(d.crop) then
                caption + NDASH + DimensionPart(d.width, d.height) + PART_SEPARATOR + CROPPED
              else if dims then caption + NDASH + DimensionPart(d.width, d.height)
              else if Truthy(d.crop) then caption + NDASH + CROPPED
              else caption
  {
    var parts := LabelParts(d);
    if |parts| == 2 {
      assert Implode(PART_SEPARATOR, parts) == parts[0] + PART_SEPARATOR + parts[1];
    }
  }

  /** The dimension part determines the absolute width and height it was printed from. */
  lemma DimensionPartInjective(w1: int, h1: int, w2: int, h2: int)
    requires DimensionPart(w1, h1) == DimensionPart(w2, h2)
    ensures Absint(w1) == Absint(w2) && Absint(h1) == Absint(h2)
  {
    DimensionPartReadsBack(w1, h1);
    DimensionPartReadsBack(w2, h2);
  }

  /** One loop iteration's effect on a choice: its key stays, its label is decorated with the
      values resolved for that key. */
  function DecorateChoice(c: Choice, additional: map<string, AdditionalSize>,
                          options: map<string, int>): Choice {
    Choice(c.key, DecoratedLabel(c.caption, ResolveDimensions(additional, options, c.key)))
  }

  /** The size list after the decoration loop: the same keys in the same order, each label
      decorated with the data of its own size. */
  function Decorated(sizes: seq<Choice>, additional: map<string, AdditionalSize>,
                     options: map<string, int>): (r: seq<Choice>)
    ensures |r| == |sizes|
    ensures forall i :: 0 <= i < |sizes| ==> r[i].key == sizes[i].key
    ensures forall i :: 0 <= i < |sizes| ==>
              r[i].caption == DecoratedLabel(sizes[i].caption, ResolveDimensions(additional, options, sizes[i].key))
  {
    seq(|sizes|, i requires 0 <= i < |sizes| => DecorateChoice(sizes[i], additional, options))
  }

  /** Decoration keeps a list of distinct keys distinct and every original label a prefix. */
  lemma DecoratedKeepsKeysAndPrefixes(sizes: seq<Choice>, additional: map<string, AdditionalSize>,
                                      options: map<string, int>)
    requires DistinctKeys(sizes)
    ensures DistinctKeys(Decorated(sizes, additional, options))
    ensures forall i :: 0 <= i < |sizes| ==>
              var r := Decorated(sizes, additional, options)[i].caption;
              |sizes[i].caption| <= |r| && r[..|sizes[i].caption|] == sizes[i].caption
  {
  }

  /** An option name determines its size and attribute: the names of two different sizes, or
      of two attributes of one size, never coincide. */
  lemma OptionKeyInjective(s1: string, s2: string, a1: Attribute, a2: Attribute)
    ensures OptionKey(s1, a1) == OptionKey(s2, a2) ==> s1 == s2 && a1 == a2
  {
    var k1, k2 := OptionKey(s1, a1), OptionKey(s2, a2);
    if k1 == k2 {
      assert k1[|k1| - 1] == SuffixEnd(a1);
      assert k2[|k2| - 1] == SuffixEnd(a2);
      assert a1 == a2;
      assert s1 == k1[..|s1|];
      assert s2 == k2[..|s2|];
    }
  }

  /** A size's label depends only on that size's own additional-size record and its own three
      options: whatever else the two stores hold, the decorated labels agree. */
  lemma DecorationIsLocal(c: Choice, add1: map<string, AdditionalSize>, opt1: map<string, int>,
                          add2: map<string, AdditionalSize>, opt2: map<string, int>)
    requires c.key in add1 <==> c.key in add2
    requires c.key in add1 ==> add1[c.key] == add2[c.key]
    requires forall a: Attribute :: NumericOption(opt1, OptionKey(c.key, a)) == NumericOption(opt2, OptionKey(c.key, a))
    ensures DecorateChoice(c, add1, opt1) == DecorateChoice(c, add2, opt2)
  {
    assert ResolveDimensions(add1, opt1, c.key) == ResolveDimensions(add2, opt2, c.key) by {
      assert NumericOption(opt1, OptionKey(c.key, Width)) == NumericOption(opt2, OptionKey(c.key, Width));
      assert NumericOption(opt1, OptionKey(c.key, Height)) == NumericOption(opt2, OptionKey(c.key, Height));
      assert NumericOption(opt1, OptionKey(c.key, Crop)) == NumericOption(opt2, OptionKey(c.key, Crop));
    }
  }

  /** Storing any option of another size leaves this size's decorated label unchanged. */
  lemma OtherSizeOptionIrrelevant(c: Choice, additional: map<string, AdditionalSize>,
                                  options: map<string, int>, other: string, a: Attribute, v: int)
    requires other != c.key
    ensures DecorateChoice(c, additional, options[OptionKey(other, a) := v])
            == DecorateChoice(c, additional, options)
  {
    forall b: Attribute
      ensures NumericOption(options[OptionKey(other, a) := v], OptionKey(c.key, b))
              == NumericOption(options, OptionKey(c.key, b))
    {
      OptionKeyInjective(other, c.key, a, b);
    }
    DecorationIsLocal(c, additional, options[OptionKey(other, a) := v], additional, options);
  }

  /** The body of the decoration loop for one size: resolve its three values, collect the
      label parts, and append them to the label when there are any. */
  method DecorateEntry(size: string, caption: string, additional: map<string, AdditionalSize>,
                       options: map<string, int>) returns (decoratedCaption: string)
    ensures decoratedCaption == DecoratedLabel(caption, ResolveDimensions(additional, options, size))
  {
    var width: int;
    if Truthy(AdditionalEntry(additional, size, Width)) {
      width := AdditionalEntry(additional, size, Width);
    } else {
      width := NumericOption(options, OptionKey(size, Width));
    }

    var height: int;
    if Truthy(AdditionalEntry(additional, size, Height)) {
      height := AdditionalEntry(additional, size, Height);
    } else {
      height := NumericOption(options, OptionKey(size, Height));
    }

    var crop: int;
    if Truthy(AdditionalEntry(additional, size, Crop)) {
      crop := AdditionalEntry(additional, size, Crop);
    } else {
      crop := NumericOption(options, OptionKey(size, Crop));
    }
    assert Dimensions(width, height, crop) == ResolveDimensions(additional, options, size);

    var parts: seq<string> := [];
    if Truthy(width) || Truthy(height) {
      parts := parts + [DecimalString(Absint(width)) + TIMES + DecimalString(Absint(height))];
    }
    if Truthy(crop) {
      parts := parts + [CROPPED];
    }
    assert parts == LabelParts(Dimensions(width, height, crop));

    decoratedCaption := caption;
    if parts != [] {
      decoratedCaption := decoratedCaption + NDASH + Implode(PART_SEPARATOR, parts);
    }
  }

  /** The decoration loop of the size field. PHP walks the list and appends the suffix to
      `$sizes[$size]`; keys are unique, so the entry for `$size` is the i-th one. */
  method DecorateSizes(sizes: seq<Choice>, additional: map<string, AdditionalSize>,
                       options: map<string, int>) returns (decorated: seq<Choice>)
    ensures decorated == Decorated(sizes, additional, options)
  {
    decorated := sizes;
    for i := 0 to |sizes|
      invariant |decorated| == |sizes|
      invariant forall j :: 0 <= j < i ==> decorated[j] == DecorateChoice(sizes[j], additional, options)
      invariant forall j :: i <= j < |sizes| ==> decorated[j] == sizes[j]
    {
      var caption := DecorateEntry(sizes[i].key, decorated[i].caption, additional, options);
      decorated := decorated[i := Choice(sizes[i].key, caption)];
    }
    assert forall j :: 0 <= j < |sizes| ==> decorated[j] == Decorated(sizes, additional, options)[j];
  }

  /** The size field: decorate the filtered size list, read the stored default size (no
      default is given, so an absent option is read as `absentValue`) and render the select. */
  method RenderSizeField(sizes: seq<Choice>, additional: map<string, AdditionalSize>,
                         options: map<string, int>, stored: Option<string>,
                         absentValue: Option<string>) returns (control: seq<OptionTag>)
    ensures control == Render(Decorated(sizes, additional, options), ReadOption(stored, absentValue))
    ensures |control| == |sizes|
    ensures forall i :: 0 <= i < |sizes| ==>
              control[i].value == sizes[i].key &&
              (control[i].selected <==> ReadOption(stored, absentValue) == Some(sizes[i].key))
  {
    var decorated := DecorateSizes(sizes, additional, options);
    var current := ReadOption(stored, absentValue);
    control := Render(decorated, current);
  }

  /** A size the filter removed is never offered, and so never selected, even when it is the
      stored default. */
  lemma FilteredOutSizeNotOffered(sizes: seq<Choice>, additional: map<string, AdditionalSize>,
                                  options: map<string, int>, size: string)
    requires !HasKey(sizes, size)
    ensures var control := Render(Decorated(sizes, additional, options), Some(size));
            forall i :: 0 <= i < |control| ==> control[i].value != size && !control[i].selected
  {
  }

  // The worked examples below. Each one is split into small lemmas over a parameter pinned by
  // a `requires`, rather than stated at literal arguments: at literal arguments the verifier
  // unfolds DecimalString, LabelParts and the string concatenations all at once, and the single
  // proof exceeds the resource budget.

  /** The numerals of the two worked examples below. */
  lemma ExampleNumerals()
    ensures DecimalString(300) == "300" && DecimalString(150) == "150"
  {
    assert DecimalString(3) == "3" && DecimalString(30) == "30";
    assert DecimalString(1) == "1" && DecimalString(15) == "15";
  }

  /** With no additional-size record for medium and the options `medium_size_w` =
      `medium_size_h` = 300, `medium_crop` = 0, the built-in medium size is offered as
      "Medium &ndash; 300 &times; 300". */
  lemma MediumLabelExample(additional: map<string, AdditionalSize>, options: map<string, int>)
    requires "medium" !in additional
    requires "medium_size_w" in options && options["medium_size_w"] == 300
    requires "medium_size_h" in options && options["medium_size_h"] == 300
    requires "medium_crop" !in options || options["medium_crop"] == 0
    ensures Decorated(DEFAULT_SIZES, additional, options)[1] == Choice("medium", "Medium &ndash; 300 &times; 300")
  {
    DefaultMediumDecorated(additional, options);
    MediumResolves(additional, options);
    MediumLabel(ResolveDimensions(additional, options, "medium"));
  }

  /** The medium options of the example above resolve to 300 by 300, uncropped. */
  lemma MediumResolves(additional: map<string, AdditionalSize>, options: map<string, int>)
    requires "medium" !in additional
    requires "medium_size_w" in options && options["medium_size_w"] == 300
    requires "medium_size_h" in options && options["medium_size_h"] == 300
    requires "medium_crop" !in options || options["medium_crop"] == 0
    ensures ResolveDimensions(additional, options, "medium") == Dimensions(300, 300, 0)
  {
    assert OptionKey("medium", Width) == "medium_size_w";
    assert OptionKey("medium", Height) == "medium_size_h";
    assert OptionKey("medium", Crop) == "medium_crop";
  }

  /** The second built-in size is medium. */
  lemma DefaultMediumDecorated(additional: map<string, AdditionalSize>, options: map<string, int>)
    ensures Decorated(DEFAULT_SIZES, additional, options)[1]
            == Choice("medium", DecoratedLabel("Medium", ResolveDimensions(additional, options, "medium")))
  {
    assert DEFAULT_SIZES[1] == Choice("medium", "Medium");
  }

  /** The medium label decorated with 300 by 300, uncropped. */
  lemma MediumLabel(d: Dimensions)
    requires d == Dimensions(300, 300, 0)
    ensures DecoratedLabel("Medium", d) == "Medium &ndash; 300 &times; 300"
  {
    DecoratedLabelCases("Medium", d);
    MediumDimensionPart(d);
    MediumSuffix("Medium", DimensionPart(d.width, d.height));
  }

  /** The medium label followed by a dimension part of 300 by 300. */
  lemma MediumSuffix(caption: string, dims: string)
    requires caption == "Medium" && dims == "300 &times; 300"
    ensures caption + NDASH + dims == "Medium &ndash; 300 &times; 300"
  {
  }

  /** The dimension part of 300 by 300. */
  lemma MediumDimensionPart(d: Dimensions)
    requires d == Dimensions(300, 300, 0)
    ensures DimensionPart(d.width, d.height) == "300 &times; 300"
  {
    ExampleNumerals();
  }

  /** A size resolved to 150 by 150, cropped, ends its label with "150 &times; 150, cropped". */
  lemma CroppedLabelExample(caption: string, d: Dimensions)
    requires d == Dimensions(150, 150, 1)
    ensures DecoratedLabel(caption, d) == caption + " &ndash; 150 &times; 150, cropped"
  {
    DecoratedLabelCases(caption, d);
    CroppedDimensionPart(d);
    CroppedSuffix(caption, DimensionPart(d.width, d.height));
  }

  /** The dimension part of 150 by 150. */
  lemma CroppedDimensionPart(d: Dimensions)
    requires d == Dimensions(150, 150, 1)
    ensures DimensionPart(d.width, d.height) == "150 &times; 150"
  {
    ExampleNumerals();
  }

  /** The decorated label with a dimension part of 150 by 150 followed by "cropped". */
  lemma CroppedSuffix(caption: string, dims: string)
    requires dims == "150 &times; 150"
    ensures caption + NDASH + dims + PART_SEPARATOR + CROPPED == caption + " &ndash; 150 &times; 150, cropped"
  {
    assert caption + NDASH + dims + PART_SEPARATOR + CROPPED
        == caption + (NDASH + dims + PART_SEPARATOR + CROPPED);
  }
}
