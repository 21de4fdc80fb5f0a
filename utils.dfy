/**
 * `get_order_details` (utils.py:3-17): the marker grammar for one order
 * fragment. `3x` sets the quantity, `$12` sets the price, and any other
 * token replaces the order name, so the last token of each kind wins.
 */
module Utils {
  import opened Wrappers
  import opened Text

  /** The three locals of the loop: `quantity`, `order` and `price`. */
  datatype Details = Details(quantity: nat, order: Option<string>, price: Option<real>)

  /** utils.py:4-5: `quantity = 1`, `price = order = None`. */
  const Defaults := Details(1, None, None)

  /** `word.endswith('x') and word[:word.find('x')].isdigit()`: digits up to the first 'x', and an 'x' at the end. */
  predicate IsQuantityMarker(word: string) {
    |word| > 0 && word[|word| - 1] == 'x' && IsDigits(word[..IndexOf(word, 'x')])
  }

  function MarkerQuantity(word: string): nat
    requires IsQuantityMarker(word)
  {
    DigitsValue(word[..IndexOf(word, 'x')])
  }

  /** `word.startswith('$') and word[1:].isdigit()`. */
  predicate IsPriceMarker(word: string) {
    |word| > 0 && word[0] == '$' && IsDigits(word[1..])
  }

  function MarkerPrice(word: string): real
    requires IsPriceMarker(word)
  {
    DigitsValue(word[1..]) as real
  }

  /** One iteration of the loop at utils.py:6-15. */
  function DetailsStep(d: Details, word: string): Details {
    if IsQuantityMarker(word) then d.(quantity := MarkerQuantity(word))
    else if IsPriceMarker(word) then d.(price := Some(MarkerPrice(word)))
    else d.(order := Some(word))
  }

  /** The loop run from state `d` over the remaining words. */
  function DetailsFrom(d: Details, words: seq<string>): Details
    decreases |words|
  {
    if words == [] then d else DetailsFrom(DetailsStep(d, words[0]), words[1..])
  }

  /** The value `get_order_details` returns for a fragment. */
  function OrderDetails(s: string): Details {
    DetailsFrom(Defaults, Split(s, ' '))
  }

  /** get_order_details(order_string). */
  method GetOrderDetails(orderString: string) returns (quantity: nat, order: Option<string>, price: Option<real>)
    ensures Details(quantity, order, price) == OrderDetails(orderString)
  {
    quantity := 1;
    price, order := None, None;
    var words := Split(orderString, ' ');
    var i := 0;
    while i < |words|
      invariant 0 <= i <= |words|
      invariant DetailsFrom(Details(quantity, order, price), words[i..]) == OrderDetails(orderString)
    {
      var word := words[i];
      ghost var before := Details(quantity, order, price);
      assert DetailsFrom(before, words[i..]) == DetailsFrom(DetailsStep(before, word), words[i + 1..]) by {
        assert words[i..][0] == word && words[i..][1..] == words[i + 1..];
      }
      if |word| > 0 && word[|word| - 1] == 'x' && IsDigits(word[..IndexOf(word, 'x')]) {
        quantity := DigitsValue(word[..IndexOf(word, 'x')]);
      } else if |word| > 0 && word[0] == '$' && IsDigits(word[1..]) {
        price := Some(DigitsValue(word[1..]) as real);
      } else {
        order := Some(word);
      }
      i := i + 1;
    }
  }

  // ---------------------------------------------------------------------
  // Last marker wins
  // ---------------------------------------------------------------------

  /** Words with no quantity marker leave the quantity alone. */
  lemma {:induction false} NoQuantityMarker(d: Details, words: seq<string>)
    requires forall j :: 0 <= j < |words| ==> !IsQuantityMarker(words[j])
    ensures DetailsFrom(d, words).quantity == d.quantity
    decreases |words|
  {
    if words != [] {
      NoQuantityMarker(DetailsStep(d, words[0]), words[1..]);
    }
  }

  /** The quantity is set by the last `Nx` token. */
  lemma {:induction false} LastQuantityMarkerWins(d: Details, words: seq<string>, i: nat)
    requires i < |words| && IsQuantityMarker(words[i])
    requires forall j :: i < j < |words| ==> !IsQuantityMarker(words[j])
    ensures DetailsFrom(d, words).quantity == MarkerQuantity(words[i])
    decreases |words|
  {
    var d' := DetailsStep(d, words[0]);
    if i == 0 {
      NoQuantityMarker(d', words[1..]);
    } else {
      LastQuantityMarkerWins(d', words[1..], i - 1);
    }
  }

  /** Words with no price marker leave the price alone. */
  lemma {:induction false} NoPriceMarker(d: Details, words: seq<string>)
    requires forall j :: 0 <= j < |words| ==> !IsPriceMarker(words[j])
    ensures DetailsFrom(d, words).price == d.price
    decreases |words|
  {
    if words != [] {
      NoPriceMarker(DetailsStep(d, words[0]), words[1..]);
    }
  }

  /** The price is set by the last `$N` token, wherever it stands. */
  lemma {:induction false} LastPriceMarkerWins(d: Details, words: seq<string>, i: nat)
    requires i < |words| && IsPriceMarker(words[i])
    requires forall j :: i < j < |words| ==> !IsPriceMarker(words[j])
    ensures DetailsFrom(d, words).price == Some(MarkerPrice(words[i]))
    decreases |words|
  {
    var d' := DetailsStep(d, words[0]);
    if i == 0 {
      assert !IsQuantityMarker(words[0]) by { QuantityAndPriceDisjoint(words[0]); }
      NoPriceMarker(d', words[1..]);
    } else {
      LastPriceMarkerWins(d', words[1..], i - 1);
    }
  }

  /** A plain word is one that is neither marker. */
  predicate IsNameWord(word: string) {
    !IsQuantityMarker(word) && !IsPriceMarker(word)
  }

  /** Words that are all markers leave the order name alone. */
  lemma {:induction false} NoNameWord(d: Details, words: seq<string>)
    requires forall j :: 0 <= j < |words| ==> !IsNameWord(words[j])
    ensures DetailsFrom(d, words).order == d.order
    decreases |words|
  {
    if words != [] {
      NoNameWord(DetailsStep(d, words[0]), words[1..]);
    }
  }

  /** The order name is the last plain word, not a concatenation of them. */
  lemma {:induction false} LastNameWordWins(d: Details, words: seq<string>, i: nat)
    requires i < |words| && IsNameWord(words[i])
    requires forall j :: i < j < |words| ==> !IsNameWord(words[j])
    ensures DetailsFrom(d, words).order == Some(words[i])
    decreases |words|
  {
    var d' := DetailsStep(d, words[0]);
    if i == 0 {
      NoNameWord(d', words[1..]);
    } else {
      LastNameWordWins(d', words[1..], i - 1);
    }
  }

  /** No token is both a quantity marker and a price marker. */
  lemma QuantityAndPriceDisjoint(word: string)
    ensures !(IsQuantityMarker(word) && IsPriceMarker(word))
  {
  }

  /**
   * Each field keeps its default until a token of its kind appears: no `Nx`
   * leaves quantity 1, no `$N` leaves price None, and only a fragment made
   * of markers alone leaves the order None.
   */
  lemma DefaultsWhenUnclassified(s: string)
    ensures (forall j :: 0 <= j < |Split(s, ' ')| ==> !IsQuantityMarker(Split(s, ' ')[j])) ==> OrderDetails(s).quantity == 1
    ensures (forall j :: 0 <= j < |Split(s, ' ')| ==> !IsPriceMarker(Split(s, ' ')[j])) ==> OrderDetails(s).price.None?
    ensures (forall j :: 0 <= j < |Split(s, ' ')| ==> !IsNameWord(Split(s, ' ')[j])) ==> OrderDetails(s).order.None?
  {
    var words := Split(s, ' ');
    if forall j :: 0 <= j < |words| ==> !IsQuantityMarker(words[j]) {
      NoQuantityMarker(Defaults, words);
    }
    if forall j :: 0 <= j < |words| ==> !IsPriceMarker(words[j]) {
      NoPriceMarker(Defaults, words);
    }
    if forall j :: 0 <= j < |words| ==> !IsNameWord(words[j]) {
      NoNameWord(Defaults, words);
    }
  }

  /** "3x" is three, "1x2x" is one (the prefix stops at the first 'x'), and a bare "x" or "$" is a plain word. */
  lemma MarkerExamples()
    ensures IsQuantityMarker("3x") && MarkerQuantity("3x") == 3
    ensures IsQuantityMarker("1x2x") && MarkerQuantity("1x2x") == 1
    ensures IsPriceMarker("$12") && MarkerPrice("$12") == 12.0
    ensures IsNameWord("x") && IsNameWord("$") && IsNameWord("")
  {
    assert IndexOf("3x", 'x') == 1;
    assert "3x"[..1] == "3" && "3"[..0] == [];
    assert IndexOf("1x2x", 'x') == 1;
    assert "1x2x"[..1] == "1" && "1"[..0] == [];
    assert "$12"[1..] == "12" && "12"[..1] == "1" && "1"[..0] == [];
    assert IndexOf("x", 'x') == 0;
  }
}
