/** The price display of service_amount.js: the text shown beside the service dropdown. */
module ServiceAmount {
  import opened Wrappers

  /** The literal prefix as the script has it: the characters U+00E2 U+201A U+00B9, which is how the
      UTF-8 bytes of the rupee sign read when decoded as Windows-1252. */
  const AmountPrefix: string := "Amount: \U{00E2}\U{201A}\U{00B9}"

  /** An `<option>`: its value and its `data-amount` attribute (None when the attribute is missing). */
  datatype ServiceOption = ServiceOption(value: string, dataAmount: Option<string>)

  /** The `.service-dropdown` select: its options and `selectedIndex` (-1 when nothing is selected). */
  datatype Dropdown = Dropdown(options: seq<ServiceOption>, selectedIndex: int)

  /** `serviceSelect.options[serviceSelect.selectedIndex]`, undefined outside the options. */
  function Selected(d: Dropdown): Option<ServiceOption>
  {
    if 0 <= d.selectedIndex < |d.options| then Some(d.options[d.selectedIndex]) else None
  }

  /** The text `updateAmountDisplay` writes: empty unless an option with a non-empty value and a
      non-empty `data-amount` is selected, and then the prefix followed by the attribute verbatim. */
  function DisplayText(d: Dropdown): (text: string)
    ensures text == "" <==>
              Selected(d).None? || Selected(d).value.value == "" ||
              Selected(d).value.dataAmount.None? || Selected(d).value.dataAmount.value == ""
    ensures text != "" ==> text == AmountPrefix + Selected(d).value.dataAmount.value
  {
    var selected := Selected(d);
    var amount := if selected.Some? then selected.value.dataAmount else None;
    if selected.Some? && selected.value.value != "" && amount.Some? && amount.value != "" then
      AmountPrefix + amount.value
    else
      ""
  }

  /** The text depends only on the selected option. */
  lemma DisplayDependsOnSelection(d1: Dropdown, d2: Dropdown)
    requires Selected(d1) == Selected(d2)
    ensures DisplayText(d1) == DisplayText(d2)
  {
  }

  /** The display element and the listener attached to the dropdown. */
  class AmountWidget {
    var attached: bool
    var textContent: string

    constructor (initialText: string)
      ensures !attached && textContent == initialText
    {
      attached := false;
      textContent := initialText;
    }

    /** The DOMContentLoaded handler: without both elements nothing is attached; otherwise the
        listener is attached and the text computed once. */
    method DomContentLoaded(hasSelect: bool, hasDisplay: bool, d: Dropdown)
      modifies this
      ensures attached == (old(attached) || (hasSelect && hasDisplay))
      ensures textContent == if hasSelect && hasDisplay then DisplayText(d) else old(textContent)
    {
      if !hasSelect || !hasDisplay {
        return;
      }
      attached := true;
      textContent := DisplayText(d);
    }

    /** A `change` event on the dropdown: recomputed when the listener is attached. */
    method OnChange(d: Dropdown)
      modifies this
      ensures attached == old(attached)
      ensures textContent == if attached then DisplayText(d) else old(textContent)
    {
      if attached {
        textContent := DisplayText(d);
      }
    }
  }
}
