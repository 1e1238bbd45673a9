/** The "Default Link Type" and "Default Align" settings fields: a fixed choice table, the
    stored value, and the select rendered from them. */
module FixedFields {
  import opened Php
  import opened Choices

  /** The link types, in display order. */
  const LINK_TYPES := [
    Choice("file", "Media File"),
    Choice("post", "Attachment Page"),
    Choice("custom", "Custom URL"),
    Choice("none", "None")
  ]

  /** `get_option('image_default_link_type', 'file')`: an absent option reads as `file`. */
  const DEFAULT_LINK_TYPE := "file"

  /** The alignments, in display order; the empty key stands for no alignment. */
  const ALIGNMENTS := [
    Choice("left", "Left"),
    Choice("center", "Center"),
    Choice("right", "Right"),
    Choice("", "None")
  ]

  /** The link-type field: the four link types in fixed order, the stored link type marked,
      and `file` marked when nothing is stored. */
  function RenderLinkTypeField(stored: Option<string>): (control: seq<OptionTag>)
    ensures |control| == 4
    ensures control[0].value == "file" && control[1].value == "post"
    ensures control[2].value == "custom" && control[3].value == "none"
    ensures forall i :: 0 <= i < 4 ==> control[i].caption == LINK_TYPES[i].caption
    ensures forall i :: 0 <= i < 4 ==> (control[i].selected <==> control[i].value == stored.GetOr("file"))
  {
    Render(LINK_TYPES, ReadOption(stored, Some(DEFAULT_LINK_TYPE)))
  }

  /** The align field: the four alignments in fixed order and the stored alignment marked. The
      option is read without a default, so an absent one is compared as `absentValue`. */
  function RenderAlignField(stored: Option<string>, absentValue: Option<string>): (control: seq<OptionTag>)
    ensures |control| == 4
    ensures control[0].value == "left" && control[1].value == "center"
    ensures control[2].value == "right" && control[3].value == ""
    ensures forall i :: 0 <= i < 4 ==> control[i].caption == ALIGNMENTS[i].caption
    ensures forall i :: 0 <= i < 4 ==>
              (control[i].selected <==> ReadOption(stored, absentValue) == Some(control[i].value))
  {
    Render(ALIGNMENTS, ReadOption(stored, absentValue))
  }

  /** The link-type field marks exactly one option when the stored value is a link type or
      nothing is stored, and none when the stored value is anything else. */
  lemma LinkTypeSelection(stored: Option<string>)
    ensures SelectedCount(RenderLinkTypeField(stored))
            == if stored.None? || stored.value in {"file", "post", "custom", "none"} then 1 else 0
  {
    var current := ReadOption(stored, Some(DEFAULT_LINK_TYPE));
    assert DistinctKeys(LINK_TYPES);
    SelectedCountOfRender(LINK_TYPES, current);
    if current.value in {"file", "post", "custom", "none"} {
      var i := if current.value == "file" then 0 else if current.value == "post" then 1
               else if current.value == "custom" then 2 else 3;
      assert LINK_TYPES[i].key == current.value;
    } else {
      assert !HasKey(LINK_TYPES, current.value);
    }
  }

  /** With nothing stored, `file` ("Media File") is the one selected link type. */
  lemma LinkTypeDefaultsToFile()
    ensures var control := RenderLinkTypeField(None);
            control[0].selected && !control[1].selected && !control[2].selected && !control[3].selected
  {
  }

  /** A stored `custom` marks only the third option, and the order stays file, post, custom, none. */
  lemma LinkTypeCustomExample()
    ensures RenderLinkTypeField(Some("custom")) == [
              OptionTag("file", "Media File", false),
              OptionTag("post", "Attachment Page", false),
              OptionTag("custom", "Custom URL", true),
              OptionTag("none", "None", false)
            ]
  {
    var control := RenderLinkTypeField(Some("custom"));
    assert control[0] == OptionTag("file", "Media File", false);
    assert control[1] == OptionTag("post", "Attachment Page", false);
    assert control[2] == OptionTag("custom", "Custom URL", true);
    assert control[3] == OptionTag("none", "None", false);
  }

  /** The align field marks exactly one option when the value it compares is an alignment
      (the empty string included), and none otherwise. */
  lemma AlignSelection(stored: Option<string>, absentValue: Option<string>)
    ensures var current := ReadOption(stored, absentValue);
            SelectedCount(RenderAlignField(stored, absentValue))
            == if current.Some? && current.value in {"left", "center", "right", ""} then 1 else 0
  {
    var current := ReadOption(stored, absentValue);
    assert DistinctKeys(ALIGNMENTS);
    SelectedCountOfRender(ALIGNMENTS, current);
    if current.Some? && current.value in {"left", "center", "right", ""} {
      var i := if current.value == "left" then 0 else if current.value == "center" then 1
               else if current.value == "right" then 2 else 3;
      assert ALIGNMENTS[i].key == current.value;
    } else if current.Some? {
      assert !HasKey(ALIGNMENTS, current.value);
    }
  }

  /** With no align option stored, the "None" option is marked exactly when the host compares an
      absent option as the empty string, and nothing is marked when it compares it as no value. */
  lemma AlignAbsent()
    ensures var control := RenderAlignField(None, Some(""));
            control[3].selected && !control[0].selected && !control[1].selected && !control[2].selected
    ensures forall i :: 0 <= i < 4 ==> !RenderAlignField(None, None)[i].selected
  {
  }
}
