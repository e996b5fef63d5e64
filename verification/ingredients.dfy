/**
 * Splitting one scraped ingredient line, e.g. `"양파 1/2개(100g)"`, into a name,
 * a free-text quantity and a metric amount, as the recipe-detail scraper does with
 * the stripped text of each list item.
 */
module Ingredients {
  import opened Wrappers
  import opened Text

  /** One ingredient of a recipe; `quantity` and `metric` may be empty. */
  datatype Ingredient = Ingredient(name: string, quantity: string, metric: string)

  predicate IsCloseParen(c: char) { c == ')' }

  /** Name and quantity written back together, the way the line showed them before the split. */
  function Join(name: string, quantity: string): (j: string)
    ensures StartsWith(j, name)
  {
    if quantity == "" then name
    else
      assert (name + " " + quantity)[..|name|] == name;
      name + " " + quantity
  }

  /** Where the line is cut: its first `(`. */
  function FirstParen(text: string): (p: nat)
    requires '(' in text
    ensures p < |text| && text[p] == '(' && '(' !in text[..p]
  {
    IndexOf(text, '(').value
  }

  /** `left.rsplit(" ", 1)` when `left` holds a space, else `(left, "")`, for a stripped `left`. */
  function SplitNameQuantity(left: string): (r: (string, string))
    requires left == [] || !IsSpace(left[|left| - 1])
    ensures Join(r.0, r.1) == left
    ensures ' ' !in r.1
    ensures r.1 == "" <==> ' ' !in left
  {
    match LastIndexOf(left, ' ')
    case Some(k) =>
      assert k < |left| - 1;
      assert left == left[..k] + " " + left[k + 1..];
      (left[..k], left[k + 1..])
    case None =>
      (left, "")
  }

  /** The split of one ingredient line. */
  function SplitIngredient(text: string): (ing: Ingredient)
    ensures ' ' !in ing.quantity
    ensures ing.metric == [] || ing.metric[|ing.metric| - 1] != ')'
    ensures ing.quantity != [] ==> '(' in text && ')' in text
    ensures '(' in text && ')' in text ==> '(' !in ing.name && '(' !in ing.quantity
  {
    if '(' in text && ')' in text then
      var p := FirstParen(text);
      var metric := RStrip(text[p + 1..], IsCloseParen);
      var nq := SplitNameQuantity(Strip(text[..p]));
      BracketPieces(text[..p]);
      Ingredient(nq.0, nq.1, metric)
    else
      Ingredient(text, "", "")
  }

  /** The part before the first `(` yields a name and a quantity without `(`. */
  lemma BracketPieces(left: string)
    requires '(' !in left
    ensures var nq := SplitNameQuantity(Strip(left)); '(' !in nq.0 && '(' !in nq.1
  {
    NotInStrip(left, '(');
    NotInPieces(Strip(left), '(');
  }

  /** A character missing from a stripped left part is missing from its name and its quantity. */
  lemma NotInPieces(left: string, c: char)
    requires left == [] || !IsSpace(left[|left| - 1])
    requires c !in left
    ensures var nq := SplitNameQuantity(left); c !in nq.0 && c !in nq.1
  {
    var nq := SplitNameQuantity(left);
    if nq.1 != "" {
      assert left == nq.0 + " " + nq.1;
      assert left[..|nq.0|] == nq.0 && left[|nq.0| + 1..] == nq.1;
    }
  }

  /** Without both brackets the whole line is the name. */
  lemma SplitWithoutParens(text: string)
    requires !('(' in text && ')' in text)
    ensures SplitIngredient(text) == Ingredient(text, "", "")
  {
  }

  /**
   * With both brackets, the metric is what follows the first `(` minus every trailing `)`,
   * and name and quantity are the stripped text before the `(`, cut at its last space.
   */
  lemma SplitWithParens(text: string)
    requires '(' in text && ')' in text
    ensures var ing := SplitIngredient(text);
      var right := text[FirstParen(text) + 1..];
      && |ing.metric| <= |right| && right[..|ing.metric|] == ing.metric
      && (forall n :: |ing.metric| <= n < |right| ==> right[n] == ')')
      && (ing.metric == [] || ing.metric[|ing.metric| - 1] != ')')
    ensures var ing := SplitIngredient(text);
      var left := Strip(text[..FirstParen(text)]);
      && Join(ing.name, ing.quantity) == left
      && ' ' !in ing.quantity
      && (ing.quantity == "" <==> ' ' !in left)
  {
  }

  /** The last space of `n + " " + q` is the one written between them when `q` has none. */
  lemma {:induction false} CutAtLastSpace(n: string, q: string)
    requires ' ' !in q
    ensures LastIndexOf(n + " " + q, ' ') == Some(|n|)
  {
    var s := n + " " + q;
    assert s[|n|] == ' ';
    assert s[|n| + 1..] == q;
    var k := LastIndexOf(s, ' ');
    assert k.Some?;
    assert ' ' !in s[k.value + 1..];
  }

  /** Cutting at the last space is the only cut that leaves no space on the right. */
  lemma {:induction false} LastSpaceUnique(n1: string, q1: string, n2: string, q2: string)
    requires n1 + " " + q1 == n2 + " " + q2
    requires ' ' !in q1 && ' ' !in q2
    ensures n1 == n2 && q1 == q2
  {
    var s := n1 + " " + q1;
    CutAtLastSpace(n1, q1);
    CutAtLastSpace(n2, q2);
    assert n1 == s[..|n1|] && n2 == s[..|n2|];
    assert q1 == s[|n1| + 1..] && q2 == s[|n2| + 1..];
  }

  /** Removing trailing `)` from `m + ")"` gives `m` back when `m` does not itself end in `)`. */
  lemma MetricRoundTrip(m: string)
    requires m == [] || m[|m| - 1] != ')'
    ensures RStrip(m + ")", IsCloseParen) == m
  {
    assert (m + ")")[..|m|] == m;
    RStripFixed(m, IsCloseParen);
  }

  /** Splitting a joined name and quantity at the last space recovers both. */
  lemma NameRoundTrip(name: string, quantity: string)
    requires var left := Join(name, quantity); left == [] || !IsSpace(left[|left| - 1])
    requires ' ' !in quantity
    requires quantity == "" ==> ' ' !in name
    ensures SplitNameQuantity(Join(name, quantity)) == (name, quantity)
  {
    if quantity != "" {
      CutAtLastSpace(name, quantity);
      var left := name + " " + quantity;
      assert left[..|name|] == name && left[|name| + 1..] == quantity;
    }
  }

  /** The first `(` of `left + "(" + rest` is the one after `left` when `left` has none. */
  lemma FirstParenAfter(left: string, rest: string)
    requires '(' !in left
    ensures FirstParen(left + "(" + rest) == |left|
  {
    var text := left + "(" + rest;
    assert text[..|left|] == left;
    assert text[|left|] == '(';
  }

  /** A line with a `(` after a bracket-free prefix, and a `)` somewhere, is split at that `(`. */
  lemma SplitAtParen(left: string, right: string)
    requires '(' !in left && ')' in right
    ensures var nq := SplitNameQuantity(Strip(left));
      SplitIngredient(left + "(" + right) == Ingredient(nq.0, nq.1, RStrip(right, IsCloseParen))
  {
    var text := left + "(" + right;
    FirstParenAfter(left, right);
    assert text[..|left|] == left;
    assert text[|left| + 1..] == right;
    assert ')' in text by {
      var k :| 0 <= k < |right| && right[k] == ')';
      assert text[|left| + 1 + k] == ')';
    }
  }

  /**
   * Writing an ingredient out as `name quantity(metric)` and splitting the line gives
   * the ingredient back, as long as the pieces are shapes the split can tell apart.
   */
  lemma SplitRoundTrip(ing: Ingredient)
    requires '(' !in Join(ing.name, ing.quantity)
    requires var left := Join(ing.name, ing.quantity);
      left == [] || (!IsSpace(left[0]) && !IsSpace(left[|left| - 1]))
    requires ' ' !in ing.quantity
    requires ing.quantity == "" ==> ' ' !in ing.name
    requires ing.metric == [] || ing.metric[|ing.metric| - 1] != ')'
    ensures SplitIngredient(Join(ing.name, ing.quantity) + "(" + ing.metric + ")") == ing
  {
    var left := Join(ing.name, ing.quantity);
    var right := ing.metric + ")";
    assert left + "(" + ing.metric + ")" == left + "(" + right;
    assert right[|right| - 1] == ')';
    SplitAtParen(left, right);
    PiecesRoundTrip(ing);
  }

  /** The pieces on either side of the `(` come back from their parts. */
  lemma PiecesRoundTrip(ing: Ingredient)
    requires var left := Join(ing.name, ing.quantity);
      left == [] || (!IsSpace(left[0]) && !IsSpace(left[|left| - 1]))
    requires ' ' !in ing.quantity
    requires ing.quantity == "" ==> ' ' !in ing.name
    requires ing.metric == [] || ing.metric[|ing.metric| - 1] != ')'
    ensures SplitNameQuantity(Strip(Join(ing.name, ing.quantity))) == (ing.name, ing.quantity)
    ensures RStrip(ing.metric + ")", IsCloseParen) == ing.metric
  {
    StripFixed(Join(ing.name, ing.quantity));
    NameRoundTrip(ing.name, ing.quantity);
    MetricRoundTrip(ing.metric);
  }
}
