/** The request page's "add to cart" form: the required-field check, the
    comma-and-whitespace cleanup before integer parsing, the product
    `total_price = quantity * unit_price`, and the call into the cart. */
module AddForm {
  import opened Basics
  import opened Text
  import opened Tables
  import opened CartOps

  const MissingFieldsMessage: string := "필수 항목을 모두 입력해주세요."
  const NotNumericMessage: string := "수량과 금액은 숫자만 입력해주세요."

  /** The five text inputs of the form, as typed. */
  datatype Form = Form(itemName: string, purchaseLink: string, optionName: string, quantityText: string, unitPriceText: string)

  /** Name, link, quantity text and unit-price text are all non-empty; the
      option may be empty. The check is on the raw text, before any cleanup. */
  predicate HasRequired(f: Form) {
    f.itemName != "" && f.purchaseLink != "" && f.quantityText != "" && f.unitPriceText != ""
  }

  /** `int(text.replace(',', '').strip())`, `None` standing for `ValueError`. */
  function ParseAmount(text: string): Option<int> {
    ParseInt(Strip(RemoveCommas(text)))
  }

  predicate HasDigit(text: string) {
    exists i :: 0 <= i < |text| && IsDigit(text[i])
  }

  /** Only a text holding at least one digit can parse. */
  lemma ParsedHasDigit(text: string)
    ensures ParseAmount(text).Some? ==> HasDigit(text)
  {
    if ParseAmount(text).Some? {
      var cleaned := Strip(RemoveCommas(text));
      var k := if cleaned[0] == '-' || cleaned[0] == '+' then 1 else 0;
      assert IsDigit(cleaned[k]);
      DigitSurvivesCleanup(text, cleaned[k]);
    }
  }

  lemma {:induction false} RemoveCommasKeeps(s: string, c: char)
    requires c in RemoveCommas(s)
    ensures c in s
  {
    if |s| > 0 {
      if s[0] != ',' && c == s[0] {
      } else {
        if s[0] != ',' {
          assert RemoveCommas(s) == [s[0]] + RemoveCommas(s[1..]);
        }
        RemoveCommasKeeps(s[1..], c);
      }
    }
  }

  lemma DigitSurvivesCleanup(text: string, c: char)
    requires c in Strip(RemoveCommas(text))
    ensures c in text
  {
    StripInfix(RemoveCommas(text));
    RemoveCommasKeeps(text, c);
  }

  /** Pressing "담기" (add) with form `f` as user `u`. */
  function SubmitAddForm(s: Store, u: string, f: Form, fault: Option<string>): (r: Applied)
    ensures !HasRequired(f) ==> r == Applied(s, Fail(MissingFieldsMessage))
    ensures HasRequired(f) && (ParseAmount(f.quantityText).None? || ParseAmount(f.unitPriceText).None?)
            ==> r == Applied(s, Fail(NotNumericMessage))
    ensures r.outcome == Pass <==>
      HasRequired(f) && ParseAmount(f.quantityText).Some? && ParseAmount(f.unitPriceText).Some? && fault.None?
    ensures r.outcome == Pass ==>
      var q := ParseAmount(f.quantityText).value;
      var p := ParseAmount(f.unitPriceText).value;
      && |r.store.pending| == |s.pending| + 1
      && r.store.pending[|s.pending|].username == u
      && r.store.pending[|s.pending|].item == Item(f.itemName, f.purchaseLink, Some(f.optionName), q, p, q * p)
    ensures r.outcome == Pass ==>
      r.store.pending[..|s.pending|] == s.pending && r.store.submitted == s.submitted && r.store.summaries == s.summaries
    ensures HasRequired(f) && ParseAmount(f.quantityText).Some? && ParseAmount(f.unitPriceText).Some? && fault.Some?
            ==> r.outcome == Fail(AddErrorPrefix + fault.value)
    ensures r.outcome != Pass ==> r.store == s
  {
    if !HasRequired(f) then Applied(s, Fail(MissingFieldsMessage))
    else
      var quantity := ParseAmount(f.quantityText);
      var unitPrice := ParseAmount(f.unitPriceText);
      if quantity.Some? && unitPrice.Some? then
        var q, p := quantity.value, unitPrice.value;
        AddToPendingCart(s, u, f.itemName, f.purchaseLink, Some(f.optionName), q, p, q * p, fault)
      else
        Applied(s, Fail(NotNumericMessage))
  }

  // ---------------------------------------------------------------------
  // Properties
  // ---------------------------------------------------------------------

  /** Thousands separators are ignored wherever they appear. */
  lemma CommasIgnored(a: string, b: string)
    ensures ParseAmount(a + "," + b) == ParseAmount(a + b)
  {
    var withComma, without := a + "," + b, a + b;
    assert RemoveCommas(",") == [];
    RemoveCommasAppend(a, ",");
    assert RemoveCommas(a + ",") == RemoveCommas(a);
    RemoveCommasAppend(a + ",", b);
    RemoveCommasAppend(a, b);
    assert RemoveCommas(withComma) == RemoveCommas(without);
  }

  /** Surrounding whitespace is ignored. */
  lemma {:induction false} SurroundingSpaceIgnored(pre: string, text: string, post: string)
    requires AllSpace(pre) && AllSpace(post)
    requires NoSpace(text)
    ensures ParseAmount(pre + text + post) == ParseAmount(text)
  {
    RemoveCommasAppend(pre + text, post);
    RemoveCommasAppend(pre, text);
    RemoveCommasNoComma(pre);
    RemoveCommasNoComma(post);
    var t := RemoveCommas(text);
    assert NoSpace(t) by {
      forall k | 0 <= k < |t|
        ensures !IsSpace(t[k])
      {
        assert t[k] in t;
        RemoveCommasKeeps(text, t[k]);
      }
    }
    StripSurrounded(pre, t, post);
  }

  /** Any integer typed as `str(n)` is read back as `n`: negative numbers
      pass straight through, there is no sign check. */
  lemma TypedIntegerParses(n: int)
    ensures ParseAmount(Show(n)) == Some(n)
  {
    RemoveCommasNoComma(Show(n));
    StripOfNoSpace(Show(n));
    ParseShow(n);
  }

  /** A text of only commas and whitespace fails the parse. */
  lemma NoDigitsRejected(text: string)
    requires forall i :: 0 <= i < |text| ==> text[i] == ',' || IsSpace(text[i])
    ensures ParseAmount(text) == None
  {
    assert !HasDigit(text) by {
      forall i | 0 <= i < |text|
        ensures !IsDigit(text[i])
      {
        assert text[i] == ',' || IsSpace(text[i]);
      }
    }
    ParsedHasDigit(text);
  }

  /** A non-empty quantity text of only commas and whitespace passes the
      required-field check and is turned away with the numbers-only error,
      leaving the store unchanged, whatever the backend would do. */
  lemma NonNumericQuantityRejected(s: Store, u: string, name: string, link: string, option: string,
                                   text: string, priceText: string, fault: Option<string>)
    requires name != "" && link != "" && text != "" && priceText != ""
    requires forall i :: 0 <= i < |text| ==> text[i] == ',' || IsSpace(text[i])
    ensures SubmitAddForm(s, u, Form(name, link, option, text, priceText), fault) == Applied(s, Fail(NotNumericMessage))
  {
    NoDigitsRejected(text);
  }

  /** Adding through the form with integer texts `str(q)` and `str(p)`
      appends to `u`'s cart one row whose total is `q * p`, whatever the
      signs, with the option text kept even when empty. */
  lemma FormAddsProduct(s: Store, u: string, name: string, link: string, option: string, q: int, p: int)
    requires Valid(s) && name != "" && link != ""
    ensures var r := SubmitAddForm(s, u, Form(name, link, option, Show(q), Show(p)), None);
      && r.outcome == Pass
      && Valid(r.store)
      && Cart(r.store, u) == Cart(s, u) + [r.store.pending[|s.pending|]]
      && r.store.pending[|s.pending|].item == Item(name, link, Some(option), q, p, q * p)
      && (forall v :: v != u ==> Cart(r.store, v) == Cart(s, v))
  {
    var f := Form(name, link, option, Show(q), Show(p));
    assert ParseAmount(f.quantityText) == Some(q) by { TypedIntegerParses(q); }
    assert ParseAmount(f.unitPriceText) == Some(p) by { TypedIntegerParses(p); }
    var r := SubmitAddForm(s, u, f, None);
    assert r == AddToPendingCart(s, u, name, link, Some(option), q, p, q * p, None);
    AddThenLoad(s, u, name, link, Some(option), q, p, q * p);
    AddedRowIsLast(s, r.store, u);
  }

  lemma AddedRowIsLast(s: Store, s': Store, u: string)
    requires |s'.pending| == |s.pending| + 1 && s'.pending[..|s.pending|] == s.pending
    requires s'.pending[|s.pending|].username == u
    ensures Cart(s', u) == Cart(s, u) + [s'.pending[|s.pending|]]
  {
    var row := s'.pending[|s.pending|];
    assert s'.pending == s.pending + [row];
    CartOfAppend(s.pending, [row], u);
    assert CartOf([row], u) == [row];
  }
}
