/**
 * `extract_order_details` (bot.py:38-51): the positional grammar that turns
 * one order fragment such as "2 coke" into a quantity and an order name.
 *
 * The loop keeps two locals. `quantity` starts as None; Python's
 * `not quantity` and `quantity or 1` treat None and 0 alike, so the model
 * keeps it as a `nat` in which 0 stands for both.
 */
module Parsing {
  import opened Wrappers
  import opened Text

  /** The loop's locals: `quantity` (0 = None or 0) and `order`. */
  datatype Extraction = Extraction(quantity: nat, order: string)

  /** `if order: order += ' '` then `order += word`. */
  function AppendWord(order: string, word: string): string {
    if order == "" then word else order + " " + word
  }

  /** One iteration of the loop at bot.py:41-47. */
  function ExtractStep(e: Extraction, word: string): Extraction {
    if IsDigits(word) && e.quantity == 0 then e.(quantity := DigitsValue(word))
    else e.(order := AppendWord(e.order, word))
  }

  /** The loop run from state `e` over the remaining words. */
  function ExtractWords(e: Extraction, words: seq<string>): Extraction
    decreases |words|
  {
    if words == [] then e else ExtractWords(ExtractStep(e, words[0]), words[1..])
  }

  /** The value `extract_order_details` returns: the loop over `s.split(' ')`, then `quantity or 1`. */
  function Extracted(s: string): (nat, string) {
    var e := ExtractWords(Extraction(0, ""), Split(s, ' '));
    (if e.quantity == 0 then 1 else e.quantity, e.order)
  }

  /** extract_order_details(order_string). */
  method ExtractOrderDetails(orderString: string) returns (quantity: nat, order: string)
    ensures (quantity, order) == Extracted(orderString)
    ensures quantity >= 1
  {
    var words := Split(orderString, ' ');
    quantity, order := 0, "";
    var i := 0;
    while i < |words|
      invariant 0 <= i <= |words|
      invariant ExtractWords(Extraction(quantity, order), words[i..]) == ExtractWords(Extraction(0, ""), words)
    {
      var word := words[i];
      ghost var before := Extraction(quantity, order);
      assert ExtractWords(before, words[i..]) == ExtractWords(ExtractStep(before, word), words[i + 1..]) by {
        assert words[i..][0] == word && words[i..][1..] == words[i + 1..];
      }
      if IsDigits(word) && quantity == 0 {
        quantity := DigitsValue(word);
      } else {
        if order != "" {
          order := order + " ";
        }
        order := order + word;
      }
      assert Extraction(quantity, order) == ExtractStep(before, word);
      i := i + 1;
    }
    if quantity == 0 {
      quantity := 1;
    }
  }

  // ---------------------------------------------------------------------
  // What the loop computes, stated without the loop
  // ---------------------------------------------------------------------

  /** A token that settles the quantity: all digits and not worth zero. */
  predicate SetsQuantity(word: string) {
    IsDigits(word) && DigitsValue(word) > 0
  }

  /** Index of the first token that settles the quantity, if any. */
  function FirstQuantityToken(words: seq<string>): (k: Option<nat>)
    ensures k.Some? ==> k.value < |words| && SetsQuantity(words[k.value])
    ensures k.Some? ==> forall j :: 0 <= j < k.value ==> !SetsQuantity(words[j])
    ensures k.None? ==> forall j :: 0 <= j < |words| ==> !SetsQuantity(words[j])
  {
    if words == [] then None
    else if SetsQuantity(words[0]) then Some(0)
    else match FirstQuantityToken(words[1..])
      case Some(k) => Some(k + 1)
      case None => None
  }

  /** The tokens of `words` that are not all digits, in order. */
  function NonDigitTokens(words: seq<string>): (r: seq<string>)
    ensures forall w :: w in r <==> w in words && !IsDigits(w)
  {
    if words == [] then []
    else if IsDigits(words[0]) then NonDigitTokens(words[1..])
    else [words[0]] + NonDigitTokens(words[1..])
  }

  /** The tokens that go into the name: everything but the quantity token and the zero-valued digit tokens before it. */
  function NameTokens(words: seq<string>): seq<string> {
    match FirstQuantityToken(words)
    case Some(k) => NonDigitTokens(words[..k]) + words[k + 1..]
    case None => NonDigitTokens(words)
  }

  function DropLeadingEmpty(words: seq<string>): (r: seq<string>)
    ensures r == [] || r[0] != ""
  {
    if words != [] && words[0] == "" then DropLeadingEmpty(words[1..]) else words
  }

  /** `' '.join(words)`, with the empty list joining to "". */
  function JoinWords(words: seq<string>): string {
    if words == [] then "" else Join(words, ' ')
  }

  /** The name tokens joined by single spaces; empty tokens (from doubled spaces) before the first word leave no trace. */
  function NameOf(words: seq<string>): string {
    JoinWords(DropLeadingEmpty(NameTokens(words)))
  }

  /** The quantity: the value of the first non-zero digit token, else 1. */
  function QuantityOf(words: seq<string>): (q: nat)
    ensures q >= 1
  {
    match FirstQuantityToken(words)
    case Some(k) => DigitsValue(words[k])
    case None => 1
  }

  /** The loop appending the words one by one to `order`. */
  function AppendAll(order: string, words: seq<string>): string
    decreases |words|
  {
    if words == [] then order else AppendAll(AppendWord(order, words[0]), words[1..])
  }

  lemma {:induction false} JoinCons(w: string, rest: seq<string>)
    ensures JoinWords([w] + rest) == if rest == [] then w else w + " " + JoinWords(rest)
  {
    assert ([w] + rest)[1..] == rest;
  }

  /** Appending to a non-empty `order` gives `order` and the words joined by spaces. */
  lemma {:induction false} AppendAllNonEmpty(order: string, words: seq<string>)
    requires order != ""
    ensures AppendAll(order, words) == JoinWords([order] + words)
    decreases |words|
  {
    if words == [] {
      JoinCons(order, []);
    } else {
      var w := words[0];
      var rest := words[1..];
      AppendAllNonEmpty(order + " " + w, rest);
      JoinCons(order + " " + w, rest);
      JoinCons(w, rest);
      JoinCons(order, [w] + rest);
      assert words == [w] + rest;
    }
  }

  /** Appending to the empty order drops the leading empty words and joins the rest by spaces. */
  lemma {:induction false} AppendAllEmpty(words: seq<string>)
    ensures AppendAll("", words) == JoinWords(DropLeadingEmpty(words))
    decreases |words|
  {
    if words != [] {
      if words[0] == "" {
        AppendAllEmpty(words[1..]);
      } else {
        AppendAllNonEmpty(words[0], words[1..]);
        assert [words[0]] + words[1..] == words;
      }
    }
  }

  /** Once the quantity is set, the loop only appends. */
  lemma {:induction false} ExtractWordsQuantitySet(e: Extraction, words: seq<string>)
    requires e.quantity > 0
    ensures ExtractWords(e, words) == Extraction(e.quantity, AppendAll(e.order, words))
    decreases |words|
  {
    if words != [] {
      ExtractWordsQuantitySet(ExtractStep(e, words[0]), words[1..]);
    }
  }

  lemma {:induction false} AppendAllConcat(order: string, a: seq<string>, b: seq<string>)
    ensures AppendAll(order, a + b) == AppendAll(AppendAll(order, a), b)
    decreases |a|
  {
    if a == [] {
      assert a + b == b;
    } else {
      assert (a + b)[0] == a[0] && (a + b)[1..] == a[1..] + b;
      AppendAllConcat(AppendWord(order, a[0]), a[1..], b);
    }
  }

  /** The quantity local the loop ends with when it starts unset: 0 when no token settles it. */
  function RawQuantity(words: seq<string>): nat {
    match FirstQuantityToken(words)
    case Some(k) => DigitsValue(words[k])
    case None => 0
  }

  /** Slices of a sequence with one element in front. */
  lemma ConsSlices<T>(w: T, rest: seq<T>, k: nat)
    requires k < |rest|
    ensures ([w] + rest)[1..] == rest
    ensures ([w] + rest)[..k + 1] == [w] + rest[..k]
    ensures ([w] + rest)[k + 2..] == rest[k + 1..]
  {
  }

  lemma ConcatAssoc<T>(a: seq<T>, b: seq<T>, c: seq<T>)
    ensures (a + b) + c == a + (b + c)
  {
  }

  lemma NonDigitTokensCons(w: string, rest: seq<string>)
    ensures NonDigitTokens([w] + rest) == (if IsDigits(w) then [] else [w]) + NonDigitTokens(rest)
  {
    assert ([w] + rest)[0] == w && ([w] + rest)[1..] == rest;
  }

  /** A token that does not settle the quantity passes the question on to the rest. */
  lemma {:induction false} ShiftPastToken(w: string, rest: seq<string>)
    requires !SetsQuantity(w)
    ensures RawQuantity([w] + rest) == RawQuantity(rest)
    ensures NameTokens([w] + rest) == (if IsDigits(w) then [] else [w]) + NameTokens(rest)
  {
    var words := [w] + rest;
    var front: seq<string> := if IsDigits(w) then [] else [w];
    assert words[0] == w && words[1..] == rest;
    match FirstQuantityToken(rest)
    case Some(k) =>
      assert FirstQuantityToken(words) == Some(k + 1);
      ConsSlices(w, rest, k);
      NonDigitTokensCons(w, rest[..k]);
      calc {
        NameTokens(words);
        NonDigitTokens([w] + rest[..k]) + rest[k + 1..];
        (front + NonDigitTokens(rest[..k])) + rest[k + 1..];
        { ConcatAssoc(front, NonDigitTokens(rest[..k]), rest[k + 1..]); }
        front + (NonDigitTokens(rest[..k]) + rest[k + 1..]);
      }
    case None =>
      assert FirstQuantityToken(words) == None;
      NonDigitTokensCons(w, rest);
  }

  /** While the quantity is unset, the loop's result is given by the first quantity token. */
  lemma {:induction false} ExtractWordsQuantityUnset(e: Extraction, words: seq<string>)
    requires e.quantity == 0
    ensures ExtractWords(e, words) == Extraction(RawQuantity(words), AppendAll(e.order, NameTokens(words)))
    decreases |words|
  {
    if words != [] {
      var w, rest := words[0], words[1..];
      assert words == [w] + rest;
      var e' := ExtractStep(e, w);
      if SetsQuantity(w) {
        ExtractWordsQuantitySet(e', rest);
        assert FirstQuantityToken(words) == Some(0);
        assert NameTokens(words) == rest by {
          assert words[..0] == [];
        }
      } else {
        ExtractWordsQuantityUnset(e', rest);
        ShiftPastToken(w, rest);
        AppendAllConcat(e.order, if IsDigits(w) then [] else [w], NameTokens(rest));
      }
    }
  }

  /**
   * What extract_order_details returns, without the loop: the first
   * all-digit token that is not worth zero is the quantity (1 if there is
   * none, so "0" and "00" never count), and every other token except the
   * zero-valued digit tokens before it goes into the name, in order,
   * separated by single spaces.
   */
  lemma ExtractedMeaning(s: string)
    ensures Extracted(s) == (QuantityOf(Split(s, ' ')), NameOf(Split(s, ' ')))
  {
    var words := Split(s, ' ');
    ExtractWordsQuantityUnset(Extraction(0, ""), words);
    AppendAllEmpty(NameTokens(words));
  }

  /** "2 coke" orders two cokes. */
  lemma ExtractedLeadingQuantity()
    ensures Extracted("2 coke") == (2, "coke")
  {
    assert "2 coke" == Join(["2", "coke"], ' ');
    SplitJoin(["2", "coke"], ' ');
    assert DigitsValue("2") == 2 by { assert "2"[..0] == []; }
    assert !IsDigits("coke") by { assert !IsDigitChar("coke"[0]); }
    assert ExtractWords(Extraction(0, ""), ["2", "coke"]) == ExtractWords(Extraction(2, ""), ["coke"]);
  }

  /** "coke" orders one coke. */
  lemma ExtractedNoQuantity()
    ensures Extracted("coke") == (1, "coke")
  {
    assert Split("coke", ' ') == ["coke"] by {
      assert forall i :: 0 <= i < |"coke"| ==> "coke"[i] != ' ';
    }
    assert !IsDigits("coke") by { assert !IsDigitChar("coke"[0]); }
  }

  /** "0 coke" also orders one coke: the "0" token is consumed but leaves the quantity unset. */
  lemma ExtractedZeroQuantity()
    ensures Extracted("0 coke") == (1, "coke")
  {
    assert "0 coke" == Join(["0", "coke"], ' ');
    SplitJoin(["0", "coke"], ' ');
    assert DigitsValue("0") == 0 by { assert "0"[..0] == []; }
    assert !IsDigits("coke") by { assert !IsDigitChar("coke"[0]); }
    assert ExtractWords(Extraction(0, ""), ["0", "coke"]) == ExtractWords(Extraction(0, ""), ["coke"]);
  }
}
