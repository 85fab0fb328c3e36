/** `components/ui/select.tsx`: the styled drop-down that reads its options
    from `<option>` and `<optgroup>` children. The children are given as a
    flattened sequence of nodes; an element carries the props the
    component reads. */
module SelectMenu {
  import opened Wrappers
  import opened JsString

  /** A child: an element with its type (`None` for a component rather
      than a tag name) and props, or anything that is not an element.
      `value` and `text` are `String(props.value)` and
      `String(props.children)`, `None` when the prop is `undefined` or
      `null`; `disabled` is `!!props.disabled`. */
  datatype Node =
    | NotElement
    | Element(tag: Option<string>, value: Option<string>, text: Option<string>, disabled: bool,
              groupLabel: Option<string>, children: seq<Node>)

  datatype ParsedOption = ParsedOption(value: string, text: string, disabled: bool, group: Option<string>)

  datatype RenderItem = Header(title: string) | Item(option: ParsedOption)

  /** `typeof type === "string" && type.toLowerCase() === name` */
  predicate IsTag(n: Node, name: string) {
    n.Element? && n.tag.Some? && ToLower(n.tag.value) == name
  }

  /** The option an `<option>` element stands for: the value defaults to
      `""` and the label to the value. */
  function OptionOf(n: Node, group: Option<string>): (o: ParsedOption)
    requires n.Element?
    ensures o.value == n.value.GetOr("") && o.text == n.text.GetOr(o.value)
    ensures o.disabled == n.disabled && o.group == group
  {
    var value := n.value.GetOr("");
    ParsedOption(value, n.text.GetOr(value), n.disabled, group)
  }

  /** The options among the children of an `<optgroup>`; anything else,
      nested groups included, is skipped. */
  function GroupOptions(kids: seq<Node>, group: Option<string>): (r: seq<ParsedOption>)
    ensures |r| <= |kids|
    ensures forall i :: 0 <= i < |r| ==> r[i].group == group
    ensures forall o :: o in r <==> OptionAmong(kids, group, o)
  {
    if |kids| == 0 then []
    else
      GroupOptionsStep(kids, group, GroupOptions(kids[1..], group));
      (if IsTag(kids[0], "option") then [OptionOf(kids[0], group)] else []) + GroupOptions(kids[1..], group)
  }

  /** `o` is the option of one of the `<option>` elements among `kids`. */
  ghost predicate OptionAmong(kids: seq<Node>, group: Option<string>, o: ParsedOption) {
    exists j :: 0 <= j < |kids| && IsTag(kids[j], "option") && o == OptionOf(kids[j], group)
  }

  lemma GroupOptionsStep(kids: seq<Node>, group: Option<string>, rest: seq<ParsedOption>)
    requires |kids| > 0
    requires forall o :: o in rest <==> OptionAmong(kids[1..], group, o)
    ensures forall o ::
      o in (if IsTag(kids[0], "option") then [OptionOf(kids[0], group)] else []) + rest <==> OptionAmong(kids, group, o)
  {
    forall o
      ensures o in (if IsTag(kids[0], "option") then [OptionOf(kids[0], group)] else []) + rest <==> OptionAmong(kids, group, o)
    {
      if o in rest {
        var j :| 0 <= j < |kids[1..]| && IsTag(kids[1..][j], "option") && o == OptionOf(kids[1..][j], group);
        assert kids[1..][j] == kids[j + 1];
      }
      if OptionAmong(kids, group, o) {
        var j :| 0 <= j < |kids| && IsTag(kids[j], "option") && o == OptionOf(kids[j], group);
        if j > 0 {
          assert kids[1..][j - 1] == kids[j];
          assert OptionAmong(kids[1..], group, o);
        }
      }
    }
  }

  /** The options one top-level child contributes. */
  function ChildOptions(n: Node): seq<ParsedOption> {
    if IsTag(n, "optgroup") then GroupOptions(n.children, n.groupLabel)
    else if IsTag(n, "option") then [OptionOf(n, None)]
    else []
  }

  /** `o` comes from the top-level child `n`: `n` is an `<option>` and `o`
      its option without a group, or `n` is an `<optgroup>` and `o` the
      option of one of its `<option>` children, under the group's label. */
  ghost predicate OptionFrom(n: Node, o: ParsedOption) {
    (IsTag(n, "option") && o == OptionOf(n, None))
    || (IsTag(n, "optgroup") && OptionAmong(n.children, n.groupLabel, o))
  }

  ghost predicate OptionOfSome(children: seq<Node>, o: ParsedOption) {
    exists i :: 0 <= i < |children| && OptionFrom(children[i], o)
  }

  /** `parseChildrenToOptions(children)`: an option exactly for each
      `<option>` child, with no group, and for each `<option>` child of an
      `<optgroup>` child, under that group's label. `ParseOptionsAppend`
      states the document order. */
  function ParseOptions(children: seq<Node>): (r: seq<ParsedOption>)
    ensures forall o :: o in r <==> OptionOfSome(children, o)
    ensures forall i :: 0 <= i < |r| ==> r[i].group.None? || exists k :: 0 <= k < |children| && IsTag(children[k], "optgroup") && r[i].group == children[k].groupLabel
  {
    if |children| == 0 then []
    else
      ParseOptionsStep(children, ParseOptions(children[1..]));
      ChildOptions(children[0]) + ParseOptions(children[1..])
  }

  lemma ChildOptionsFrom(n: Node)
    ensures forall o :: o in ChildOptions(n) <==> OptionFrom(n, o)
  {
  }

  lemma ParseOptionsStep(children: seq<Node>, rest: seq<ParsedOption>)
    requires |children| > 0
    requires forall o :: o in rest <==> OptionOfSome(children[1..], o)
    ensures forall o :: o in ChildOptions(children[0]) + rest <==> OptionOfSome(children, o)
    ensures forall o :: o in ChildOptions(children[0]) + rest ==>
      o.group.None? || exists k :: 0 <= k < |children| && IsTag(children[k], "optgroup") && o.group == children[k].groupLabel
  {
    ChildOptionsFrom(children[0]);
    forall o
      ensures o in ChildOptions(children[0]) + rest <==> OptionOfSome(children, o)
    {
      if o in rest {
        var i :| 0 <= i < |children[1..]| && OptionFrom(children[1..][i], o);
        assert children[1..][i] == children[i + 1];
      }
      if OptionOfSome(children, o) {
        var i :| 0 <= i < |children| && OptionFrom(children[i], o);
        if i > 0 {
          assert children[1..][i - 1] == children[i];
          assert OptionOfSome(children[1..], o);
        }
      }
    }
    forall o | o in ChildOptions(children[0]) + rest
      ensures o.group.None? || exists k :: 0 <= k < |children| && IsTag(children[k], "optgroup") && o.group == children[k].groupLabel
    {
      var i :| 0 <= i < |children| && OptionFrom(children[i], o);
      if IsTag(children[i], "optgroup") && !IsTag(children[i], "option") {
        var j :| 0 <= j < |children[i].children| && IsTag(children[i].children[j], "option")
          && o == OptionOf(children[i].children[j], children[i].groupLabel);
      }
    }
  }

  /** Document order: the options of two runs of children are those of the
      first run followed by those of the second. */
  lemma {:induction false} ParseOptionsAppend(a: seq<Node>, b: seq<Node>)
    ensures ParseOptions(a + b) == ParseOptions(a) + ParseOptions(b)
    ensures ParseOptions([]) == [] && forall n :: ParseOptions([n]) == ChildOptions(n)
    decreases |a|
  {
    if |a| > 0 {
      assert (a + b)[0] == a[0] && (a + b)[1..] == a[1..] + b;
      ParseOptionsAppend(a[1..], b);
    } else {
      assert a + b == b;
    }
    forall n
      ensures ParseOptions([n]) == ChildOptions(n)
    {
      assert [n][1..] == [];
    }
  }

  /** The render items of an `<optgroup>`'s children. */
  function GroupItems(kids: seq<Node>, group: string): (r: seq<RenderItem>)
    ensures forall i :: 0 <= i < |r| ==> r[i].Item?
  {
    if |kids| == 0 then []
    else (if IsTag(kids[0], "option") then [Item(OptionOf(kids[0], Some(group)))] else []) + GroupItems(kids[1..], group)
  }

  /** A header for a group whose label is not empty, then its options. */
  function ChildItems(n: Node): (r: seq<RenderItem>)
    ensures forall i :: 0 <= i < |r| && r[i].Header? ==> r[i].title != ""
  {
    if IsTag(n, "optgroup") then
      var glabel := n.groupLabel.GetOr("");
      (if glabel != "" then [Header(glabel)] else []) + GroupItems(n.children, glabel)
    else if IsTag(n, "option") then [Item(OptionOf(n, None))]
    else []
  }

  /** `buildRenderItems(children)` */
  function BuildItems(children: seq<Node>): (r: seq<RenderItem>)
    ensures forall i :: 0 <= i < |r| && r[i].Header? ==> r[i].title != ""
  {
    if |children| == 0 then [] else ChildItems(children[0]) + BuildItems(children[1..])
  }

  /** The options of a list of render items, headers dropped. */
  function ItemOptions(items: seq<RenderItem>): (r: seq<ParsedOption>)
    ensures |r| <= |items|
  {
    if |items| == 0 then []
    else (if items[0].Item? then [items[0].option] else []) + ItemOptions(items[1..])
  }

  /** The same option, the group compared as `group ?? ""`. */
  predicate SameOption(a: ParsedOption, b: ParsedOption) {
    a.value == b.value && a.text == b.text && a.disabled == b.disabled && a.group.GetOr("") == b.group.GetOr("")
  }

  predicate SameOptions(a: seq<ParsedOption>, b: seq<ParsedOption>) {
    |a| == |b| && forall i :: 0 <= i < |a| ==> SameOption(a[i], b[i])
  }

  lemma SameOptionsAppend(a: seq<ParsedOption>, b: seq<ParsedOption>, c: seq<ParsedOption>, d: seq<ParsedOption>)
    requires SameOptions(a, b) && SameOptions(c, d)
    ensures SameOptions(a + c, b + d)
  {
  }

  lemma {:induction false} ItemOptionsAppend(a: seq<RenderItem>, b: seq<RenderItem>)
    ensures ItemOptions(a + b) == ItemOptions(a) + ItemOptions(b)
    decreases |a|
  {
    if |a| > 0 {
      assert (a + b)[0] == a[0] && (a + b)[1..] == a[1..] + b;
      ItemOptionsAppend(a[1..], b);
    } else {
      assert a + b == b;
    }
  }

  lemma {:induction false} GroupItemsMatch(kids: seq<Node>, glabel: Option<string>)
    ensures SameOptions(ItemOptions(GroupItems(kids, glabel.GetOr(""))), GroupOptions(kids, glabel))
    decreases |kids|
  {
    if |kids| > 0 {
      var g := glabel.GetOr("");
      var head := if IsTag(kids[0], "option") then [Item(OptionOf(kids[0], Some(g)))] else [];
      ItemOptionsAppend(head, GroupItems(kids[1..], g));
      GroupItemsMatch(kids[1..], glabel);
      var ph := if IsTag(kids[0], "option") then [OptionOf(kids[0], glabel)] else [];
      assert SameOptions(ItemOptions(head), ph);
      SameOptionsAppend(ItemOptions(head), ph, ItemOptions(GroupItems(kids[1..], g)), GroupOptions(kids[1..], glabel));
    }
  }

  lemma ChildItemsMatch(n: Node)
    ensures SameOptions(ItemOptions(ChildItems(n)), ChildOptions(n))
  {
    if IsTag(n, "optgroup") {
      var glabel := n.groupLabel.GetOr("");
      var head := if glabel != "" then [Header(glabel)] else [];
      ItemOptionsAppend(head, GroupItems(n.children, glabel));
      GroupItemsMatch(n.children, n.groupLabel);
    }
  }

  /** The option items of the drop-down are the parsed options, in the
      same order; a group without a label is `null` in one and `""` in
      the other, which the keys do not tell apart. */
  lemma {:induction false} ItemsMatchOptions(children: seq<Node>)
    ensures SameOptions(ItemOptions(BuildItems(children)), ParseOptions(children))
    decreases |children|
  {
    if |children| > 0 {
      ItemOptionsAppend(ChildItems(children[0]), BuildItems(children[1..]));
      ChildItemsMatch(children[0]);
      ItemsMatchOptions(children[1..]);
      SameOptionsAppend(ItemOptions(ChildItems(children[0])), ChildOptions(children[0]),
                        ItemOptions(BuildItems(children[1..])), ParseOptions(children[1..]));
    }
  }

  /** `Math.min(320, Math.max(40, optionsCount * 36 + 12))` */
  function DropdownHeight(optionsCount: nat): (h: nat)
    ensures 40 <= h <= 320
    ensures 1 <= optionsCount <= 8 ==> h == 36 * optionsCount + 12
    ensures optionsCount == 0 ==> h == 40
    ensures optionsCount >= 9 ==> h == 320
  {
    var natural := optionsCount * 36 + 12;
    if natural < 40 then 40 else if natural > 320 then 320 else natural
  }

  /** A longer list never gets a shorter drop-down. */
  lemma DropdownMonotone(a: nat, b: nat)
    requires a <= b
    ensures DropdownHeight(a) <= DropdownHeight(b)
  {
  }

  /** The value `findLabel` is given. */
  datatype Selected = Undefined | Null | Text(s: string) | List(items: seq<string>)

  /** The index of the first option with value `key`. */
  function FirstWithValue(parsed: seq<ParsedOption>, key: string): (r: Option<nat>)
    ensures r.Some? ==> r.value < |parsed| && parsed[r.value].value == key
    ensures r.Some? ==> forall j :: 0 <= j < r.value ==> parsed[j].value != key
    ensures r.None? ==> forall j :: 0 <= j < |parsed| ==> parsed[j].value != key
  {
    if |parsed| == 0 then None
    else if parsed[0].value == key then Some(0)
    else
      match FirstWithValue(parsed[1..], key)
      case None => None
      case Some(i) => Some(i + 1)
  }

  /** `findLabel(val)`: `""` for nothing or an empty array, otherwise the
      label of the first option whose value matches, else the value itself. */
  function FindLabel(parsed: seq<ParsedOption>, val: Selected): (r: string)
    ensures val.Undefined? || val.Null? || val == List([]) ==> r == ""
  {
    var key: Option<string> :=
      match val
      case Undefined => None
      case Null => None
      case Text(s) => Some(s)
      case List(items) => if |items| == 0 then None else Some(items[0]);
    if key.None? then ""
    else
      match FirstWithValue(parsed, key.value)
      case Some(i) => parsed[i].text
      case None => key.value
  }

  /** What `findLabel` looks up. */
  function Key(val: Selected): Option<string> {
    if val.Text? then Some(val.s)
    else if val.List? && |val.items| > 0 then Some(val.items[0])
    else None
  }

  /** No option before `i` has the value of option `i`. */
  predicate FirstOfValue(parsed: seq<ParsedOption>, i: nat)
    requires i < |parsed|
  {
    forall j :: 0 <= j < i ==> parsed[j].value != parsed[i].value
  }

  /** No option has the value `key`. */
  predicate NoOption(parsed: seq<ParsedOption>, key: string) {
    forall j :: 0 <= j < |parsed| ==> parsed[j].value != key
  }

  /** `findLabel` shows the label of the first option with the key, and
      the key itself when no option has it. */
  lemma FindLabelMeaning(parsed: seq<ParsedOption>, val: Selected)
    ensures Key(val).None? ==> FindLabel(parsed, val) == ""
    ensures Key(val).Some? && NoOption(parsed, Key(val).value) ==> FindLabel(parsed, val) == Key(val).value
    ensures forall i :: 0 <= i < |parsed| && Key(val) == Some(parsed[i].value) && FirstOfValue(parsed, i) ==> FindLabel(parsed, val) == parsed[i].text
  {
  }

  /** `handleSelect(opt)`: the value emitted, if any, and whether the menu
      is still open. A disabled option does nothing. */
  function HandleSelect(opt: ParsedOption, open: bool): (r: (Option<string>, bool))
    ensures opt.disabled ==> r == (None, open)
    ensures !opt.disabled ==> r == (Some(opt.value), false)
  {
    if opt.disabled then (None, open) else (Some(opt.value), false)
  }

  /** The number of option items, which sizes the drop-down. */
  function OptionCount(items: seq<RenderItem>): nat {
    |ItemOptions(items)|
  }

  /** The drop-down is sized by the number of parsed options. */
  lemma CountIsParsed(children: seq<Node>)
    ensures OptionCount(BuildItems(children)) == |ParseOptions(children)|
  {
    ItemsMatchOptions(children);
  }
}
