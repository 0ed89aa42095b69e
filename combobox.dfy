/** The combo box's state: the typed text, the options it filters down to
    case-insensitively, whether the list is open, and the highlighted
    entry; and the sync of the text with a controlled value. */
module ComboBoxForm {
  import opened Text

  /** An option's value: a string or a number; `===` never equates the
      two kinds. */
  datatype OptionValue = StrValue(s: string) | NumValue(n: int)

  /** An option; `caption` is its `label`, a word Dafny reserves. */
  datatype ComboOption = ComboOption(value: OptionValue, caption: string)

  /** The `value` prop: absent (undefined), null, or a value. */
  datatype ControlledValue = Absent | Null | Given(v: OptionValue)

  /** An option matches the typed text when its label contains the text,
      ignoring ASCII case. */
  predicate Matches(o: ComboOption, input: string) {
    Contains(Lower(o.caption), Lower(input))
  }

  /** The options whose label contains the text, in their order. */
  function Matching(options: seq<ComboOption>, input: string): (r: seq<ComboOption>)
    ensures |r| <= |options|
    ensures forall i :: 0 <= i < |r| ==> Matches(r[i], input)
  {
    if options == [] then []
    else (if Matches(options[0], input) then [options[0]] else []) + Matching(options[1..], input)
  }

  /** The filter effect's result: every option for empty text, the
      matching ones otherwise. */
  function Filtered(options: seq<ComboOption>, input: string): (r: seq<ComboOption>)
    ensures |r| <= |options|
    ensures input != "" ==> forall i :: 0 <= i < |r| ==> Matches(r[i], input)
  {
    if input == "" then options else Matching(options, input)
  }

  /** Filtering keeps the options' relative order: it distributes over
      concatenation. */
  lemma {:induction false} MatchingAppend(a: seq<ComboOption>, b: seq<ComboOption>, input: string)
    ensures Matching(a + b, input) == Matching(a, input) + Matching(b, input)
  {
    if a != [] {
      assert (a + b)[0] == a[0];
      assert (a + b)[1..] == a[1..] + b;
      MatchingAppend(a[1..], b, input);
    } else {
      assert a + b == b;
    }
  }

  /** An option is listed for non-empty text exactly when it is one of the
      options and its label contains the text, ignoring case. */
  lemma {:induction false} MatchingMembers(options: seq<ComboOption>, input: string, o: ComboOption)
    ensures o in Matching(options, input) <==> o in options && Matches(o, input)
  {
    if options != [] {
      MatchingMembers(options[1..], input, o);
      assert options == [options[0]] + options[1..];
    }
  }

  /** The empty text is contained in every label, so the special case for
      it agrees with the general filter. */
  lemma {:induction false} EmptyTextMatchesAll(options: seq<ComboOption>)
    ensures Matching(options, "") == options
    ensures Filtered(options, "") == options
  {
    if options != [] {
      assert OccursAt(Lower(options[0].caption), Lower(""), 0);
      EmptyTextMatchesAll(options[1..]);
      assert options == [options[0]] + options[1..];
    }
  }

  /** The filtered list is non-empty exactly when some option matches the
      text (every option matches the empty text). */
  lemma FilteredNonEmpty(options: seq<ComboOption>, input: string)
    ensures |Filtered(options, input)| > 0 <==> exists o :: o in options && Matches(o, input)
  {
    if input == "" {
      EmptyTextMatchesAll(options);
      if options != [] {
        assert OccursAt(Lower(options[0].caption), Lower(""), 0);
      }
    } else {
      var r := Filtered(options, input);
      if |r| > 0 {
        MatchingMembers(options, input, r[0]);
      }
      if o :| o in options && Matches(o, input) {
        MatchingMembers(options, input, o);
      }
    }
  }

  lemma LowerUpperChar(c: char)
    ensures LowerChar(UpperChar(c)) == LowerChar(c)
  {
  }

  /** Typing the same text in another case lists the same options. */
  lemma CaseIgnored(options: seq<ComboOption>, input: string)
    ensures Filtered(options, Upper(input)) == Filtered(options, input)
    ensures Filtered(options, Lower(input)) == Filtered(options, input)
  {
    forall i | 0 <= i < |input| ensures Lower(Upper(input))[i] == Lower(input)[i] {
      LowerUpperChar(input[i]);
    }
    assert Lower(Upper(input)) == Lower(input);
    LowerIdempotent(input);
    SameFoldSameMatches(options, Upper(input), input);
    SameFoldSameMatches(options, Lower(input), input);
  }

  lemma {:induction false} SameFoldSameMatches(options: seq<ComboOption>, a: string, b: string)
    requires Lower(a) == Lower(b)
    ensures Filtered(options, a) == Filtered(options, b)
  {
    assert |a| == |Lower(a)| == |b|;
    if a != "" {
      MatchingSameFold(options, a, b);
    }
  }

  lemma {:induction false} MatchingSameFold(options: seq<ComboOption>, a: string, b: string)
    requires Lower(a) == Lower(b)
    ensures Matching(options, a) == Matching(options, b)
  {
    if options != [] {
      MatchingSameFold(options[1..], a, b);
    }
  }

  /** After an option is clicked its label becomes the text, and the option
      is still listed. */
  lemma SelectedStaysListed(options: seq<ComboOption>, o: ComboOption)
    requires o in options
    ensures o in Filtered(options, o.caption)
  {
    var l := Lower(o.caption);
    assert OccursAt(l, l, 0) by {
      assert l[0..|l|] == l;
    }
    if o.caption != "" {
      MatchingMembers(options, o.caption, o);
    }
  }

  /** The first option whose value is the controlled value. */
  function FindByValue(options: seq<ComboOption>, v: OptionValue): (r: Option<nat>)
    ensures r.Some? ==> r.value < |options| && options[r.value].value == v
    ensures r.Some? ==> forall j :: 0 <= j < r.value ==> options[j].value != v
    ensures r.None? ==> forall j :: 0 <= j < |options| ==> options[j].value != v
  {
    if options == [] then None
    else if options[0].value == v then Some(0)
    else match FindByValue(options[1..], v)
      case None => None
      case Some(k) => Some(k + 1)
  }

  /** The text the controlled-value effect sets, if it sets one: the label
      of the first option with the value, or the empty string when there is
      none, and null matches no option. */
  function SyncedText(options: seq<ComboOption>, controlled: ControlledValue): (r: Option<string>)
    ensures controlled.Absent? <==> r.None?
    ensures controlled.Null? ==> r == Some("")
  {
    match controlled
    case Absent => None
    case Null => Some("")
    case Given(v) =>
      match FindByValue(options, v)
      case Some(k) => Some(options[k].caption)
      case None => Some("")
  }

  /** A controlled value that an option carries shows that option's label;
      one no option carries empties the text. */
  lemma SyncedTextShowsLabel(options: seq<ComboOption>, v: OptionValue)
    ensures (exists j :: 0 <= j < |options| && options[j].value == v) ==>
      exists j :: 0 <= j < |options| && options[j].value == v &&
        SyncedText(options, Given(v)) == Some(options[j].caption) &&
        forall k :: 0 <= k < j ==> options[k].value != v
    ensures (forall j :: 0 <= j < |options| ==> options[j].value != v) ==>
      SyncedText(options, Given(v)) == Some("")
  {
    if exists j :: 0 <= j < |options| && options[j].value == v {
      var k := FindByValue(options, v).value;
      assert options[k].value == v;
    }
  }

  /** The component's state, with the props it reads. */
  class ComboBox {
    var options: seq<ComboOption>
    var controlled: ControlledValue
    var inputValue: string
    var filteredOptions: seq<ComboOption>
    var isOpen: bool
    var highlightedIndex: int

    /** The initial state: no text, every option, closed, nothing
        highlighted. */
    constructor (options: seq<ComboOption>, controlled: ControlledValue)
      ensures this.options == options && this.controlled == controlled
      ensures inputValue == "" && filteredOptions == options
      ensures !isOpen && highlightedIndex == -1
    {
      this.options := options;
      this.controlled := controlled;
      inputValue := "";
      filteredOptions := options;
      isOpen := false;
      highlightedIndex := -1;
    }

    /** The state after the filter effect has run. */
    predicate Settled()
      reads this
    {
      filteredOptions == Filtered(options, inputValue) && highlightedIndex == -1
    }

    /** The list is drawn when open and non-empty. */
    predicate ListShown()
      reads this
    {
      isOpen && |filteredOptions| > 0
    }

    /** The controlled-value effect. */
    method SyncControlledValue()
      modifies this
      ensures controlled.Absent? ==> inputValue == old(inputValue)
      ensures !controlled.Absent? ==> inputValue == SyncedText(options, controlled).value
      ensures options == old(options) && controlled == old(controlled)
      ensures filteredOptions == old(filteredOptions) && isOpen == old(isOpen)
      ensures highlightedIndex == old(highlightedIndex)
    {
      if controlled != Absent {
        var text := SyncedText(options, controlled);
        inputValue := text.value;
      }
    }

    /** The filter effect: recomputes the list and clears the highlight. */
    method FilterEffect()
      modifies this
      ensures Settled()
      ensures options == old(options) && controlled == old(controlled)
      ensures inputValue == old(inputValue) && isOpen == old(isOpen)
    {
      if inputValue == "" {
        filteredOptions := options;
      } else {
        filteredOptions := Matching(options, inputValue);
      }
      highlightedIndex := -1;
    }

    /** `handleInputChange`: takes the typed text and opens the list. */
    method HandleInputChange(text: string)
      modifies this
      ensures inputValue == text && isOpen
      ensures options == old(options) && controlled == old(controlled)
      ensures filteredOptions == old(filteredOptions) && highlightedIndex == old(highlightedIndex)
    {
      inputValue := text;
      isOpen := true;
    }

    /** `handleOptionClick`: the text becomes the label, the list closes,
        and the option's value and label are reported. */
    method HandleOptionClick(option: ComboOption) returns (selected: (OptionValue, string))
      modifies this
      ensures inputValue == option.caption && !isOpen
      ensures selected == (option.value, option.caption)
      ensures options == old(options) && controlled == old(controlled)
      ensures filteredOptions == old(filteredOptions) && highlightedIndex == old(highlightedIndex)
    {
      inputValue := option.caption;
      isOpen := false;
      selected := (option.value, option.caption);
    }

    /** `handleInputFocus`: opens the list. */
    method HandleInputFocus()
      modifies this
      ensures isOpen
      ensures options == old(options) && controlled == old(controlled) && inputValue == old(inputValue)
      ensures filteredOptions == old(filteredOptions) && highlightedIndex == old(highlightedIndex)
    {
      isOpen := true;
    }

    /** Typing, followed by the effect it triggers: the list is open and
        shows exactly the options matching the new text. */
    method Type(text: string)
      modifies this
      ensures isOpen && inputValue == text && Settled()
      ensures filteredOptions == Filtered(options, text)
      ensures ListShown() <==> exists o :: o in options && Matches(o, text)
      ensures options == old(options) && controlled == old(controlled)
    {
      HandleInputChange(text);
      FilterEffect();
      FilteredNonEmpty(options, text);
    }

    /** Clicking an option, followed by the effect it triggers: the list is
        closed and, once reopened, still offers the chosen option. */
    method Choose(option: ComboOption) returns (selected: (OptionValue, string))
      requires option in options
      modifies this
      ensures !isOpen && inputValue == option.caption && Settled()
      ensures !ListShown()
      ensures option in filteredOptions
      ensures selected == (option.value, option.caption)
      ensures options == old(options) && controlled == old(controlled)
    {
      selected := HandleOptionClick(option);
      FilterEffect();
      SelectedStaysListed(options, option);
    }
  }
}
