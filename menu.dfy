/**
 * The menu file `menu.txt`: one `item,price,category` line per item. The
 * admin's menu table (`loadMenu` / `saveMenu`) reads every line that
 * `split(",")` cuts into exactly three parts and writes the rows back joined
 * by commas; each category tab of the customer's window
 * (`loadCategoryItems`) shows the item and price of the lines whose category
 * equals the tab's name, ignoring case.
 */
module Menu {
  import opened Wrappers
  import opened JavaText

  const Comma: char := ','

  /** A row of the admin's menu table, every cell the text read from the file. */
  datatype MenuRow = MenuRow(item: string, price: string, category: string)

  /** A row of a category tab: item and price. */
  datatype TabRow = TabRow(item: string, price: string)

  /** A line is a menu row when `split(",")` yields exactly three parts. */
  function ReadMenuLine(line: string): Option<MenuRow> {
    var parts := JavaSplit(line, [Comma]);
    if |parts| == 3 then Some(MenuRow(parts[0], parts[1], parts[2])) else None
  }

  /** The menu table after reading `lines`. */
  function MenuOf(lines: seq<string>): seq<MenuRow> {
    if lines == [] then []
    else
      var rows := MenuOf(lines[..|lines| - 1]);
      match ReadMenuLine(lines[|lines| - 1])
      case None => rows
      case Some(r) => rows + [r]
  }

  lemma MenuStep(lines: seq<string>, i: nat)
    requires i < |lines|
    ensures MenuOf(lines[..i + 1]) ==
      match ReadMenuLine(lines[i]) case None => MenuOf(lines[..i]) case Some(r) => MenuOf(lines[..i]) + [r]
  {
    assert lines[..i + 1][..i] == lines[..i];
  }

  /** `loadMenu`. */
  method LoadMenu(lines: seq<string>) returns (rows: seq<MenuRow>)
    ensures rows == MenuOf(lines)
  {
    rows := [];
    var i := 0;
    while i < |lines|
      invariant 0 <= i <= |lines|
      invariant rows == MenuOf(lines[..i])
    {
      MenuStep(lines, i);
      var parts := JavaSplit(lines[i], [Comma]);
      if |parts| == 3 {
        rows := rows + [MenuRow(parts[0], parts[1], parts[2])];
      }
      i := i + 1;
    }
    assert lines[..i] == lines;
  }

  // ---------------------------------------------------------------- saving

  /** The line `saveMenu` writes for a row. */
  function MenuLine(r: MenuRow): string {
    r.item + [Comma] + r.price + [Comma] + r.category
  }

  /** `saveMenu`: one line per row, in table order. */
  function MenuFile(rows: seq<MenuRow>): (lines: seq<string>)
    ensures |lines| == |rows|
  {
    if rows == [] then [] else MenuFile(rows[..|rows| - 1]) + [MenuLine(rows[|rows| - 1])]
  }

  /**
   * A row reads back as itself when no cell holds a comma and the category
   * is not empty (`split` drops trailing empty parts).
   */
  predicate Storable(r: MenuRow) {
    Comma !in r.item && Comma !in r.price && Comma !in r.category && r.category != []
  }

  lemma MenuLineRoundTrip(r: MenuRow)
    requires Storable(r)
    ensures ReadMenuLine(MenuLine(r)) == Some(r)
  {
    var rest := r.price + [Comma] + r.category;
    assert MenuLine(r) == r.item + [Comma] + rest;
    SplitAtFirst(r.item, Comma, rest);
    SplitAtFirst(r.price, Comma, r.category);
    IndexOfFreeChar(r.category, Comma);
    IndexOfAfterFree(r.item, Comma, rest);
    assert SplitAll(MenuLine(r), [Comma]) == [r.item, r.price, r.category];
  }

  /** An item name with a comma is saved, but its line is no longer a menu row when read back. */
  lemma CommaItemLost(r: MenuRow)
    requires Comma in r.item
    ensures ReadMenuLine(MenuLine(r)) != Some(r)
  {
    if |JavaSplit(MenuLine(r), [Comma])| == 3 {
      JavaSplitPiecesFree(MenuLine(r), Comma, 0);
    }
  }

  lemma MenuFileLast(rows: seq<MenuRow>)
    requires rows != []
    ensures MenuFile(rows) == MenuFile(rows[..|rows| - 1]) + [MenuLine(rows[|rows| - 1])]
  {
  }

  lemma MenuSnoc(lines: seq<string>, line: string, r: MenuRow)
    requires ReadMenuLine(line) == Some(r)
    ensures MenuOf(lines + [line]) == MenuOf(lines) + [r]
  {
    assert (lines + [line])[..|lines|] == lines;
  }

  /** Saving a menu of storable rows and loading it gives the same table. */
  lemma {:induction false} MenuRoundTrip(rows: seq<MenuRow>)
    requires forall k :: 0 <= k < |rows| ==> Storable(rows[k])
    ensures MenuOf(MenuFile(rows)) == rows
  {
    if rows != [] {
      var init, last := rows[..|rows| - 1], rows[|rows| - 1];
      assert rows == init + [last];
      assert forall k :: 0 <= k < |init| ==> init[k] == rows[k];
      MenuRoundTrip(init);
      MenuLineRoundTrip(last);
      MenuSnoc(MenuFile(init), MenuLine(last), last);
      MenuFileLast(rows);
    }
  }

  // ---------------------------------------------------------------- category tabs

  /** `Character.toUpperCase` on the ASCII letters. */
  function Upper(c: char): char {
    if 'a' <= c <= 'z' then (c as int - 32) as char else c
  }

  /** `String.equalsIgnoreCase`, letters compared through their upper case. */
  predicate EqualsIgnoreCase(a: string, b: string) {
    |a| == |b| && forall k :: 0 <= k < |a| ==> Upper(a[k]) == Upper(b[k])
  }

  /** A line saved as `food` or `DRINKS` shows on the `Food` or `Drinks` tab; `Snack` is not `Snacks`. */
  lemma IgnoreCaseExamples()
    ensures EqualsIgnoreCase("food", "Food") && EqualsIgnoreCase("DRINKS", "Drinks")
    ensures !EqualsIgnoreCase("Snack", "Snacks")
  {
    assert Upper('f') == 'F' && Upper('o') == 'O' && Upper('d') == 'D';
    assert Upper('r') == 'R' && Upper('i') == 'I' && Upper('n') == 'N' && Upper('k') == 'K' && Upper('s') == 'S';
  }

  /** `equalsIgnoreCase` is an equivalence: reflexive, symmetric and transitive. */
  lemma IgnoreCaseEquivalence(a: string, b: string, c: string)
    ensures EqualsIgnoreCase(a, a)
    ensures EqualsIgnoreCase(a, b) ==> EqualsIgnoreCase(b, a)
    ensures EqualsIgnoreCase(a, b) && EqualsIgnoreCase(b, c) ==> EqualsIgnoreCase(a, c)
  {
  }

  /** The five tabs of the customer window, in tab order. */
  const Categories: seq<string> := ["Food", "Drinks", "Desserts", "Combo Meal", "Snacks"]

  /** No two tab names are equal ignoring case. */
  lemma CategoriesDistinct(i: nat, j: nat)
    requires i < j < |Categories|
    ensures !EqualsIgnoreCase(Categories[i], Categories[j])
  {
    if |Categories[i]| == |Categories[j]| {
      assert i == 1 && j == 4;
      assert Upper(Categories[i][0]) != Upper(Categories[j][0]);
    }
  }

  /** A category text matches at most one tab, so every menu line shows on at most one tab. */
  lemma AtMostOneTab(line: string, i: nat, j: nat)
    requires i < j < |Categories|
    ensures TabLine([], line, Categories[i]) == [] || TabLine([], line, Categories[j]) == []
  {
    var parts := JavaSplit(line, [Comma]);
    if |parts| == 3 && EqualsIgnoreCase(parts[2], Categories[i]) && EqualsIgnoreCase(parts[2], Categories[j]) {
      IgnoreCaseEquivalence(Categories[i], parts[2], Categories[j]);
      CategoriesDistinct(i, j);
    }
  }

  /** What one more line adds to the tab of `category`. */
  function TabLine(rows: seq<TabRow>, line: string, category: string): seq<TabRow> {
    var parts := JavaSplit(line, [Comma]);
    if |parts| == 3 && EqualsIgnoreCase(parts[2], category) then rows + [TabRow(parts[0], parts[1])] else rows
  }

  /** The rows of the tab of `category` after reading `lines`. */
  function TabOf(lines: seq<string>, category: string): seq<TabRow> {
    if lines == [] then [] else TabLine(TabOf(lines[..|lines| - 1], category), lines[|lines| - 1], category)
  }

  lemma TabStep(lines: seq<string>, i: nat, category: string)
    requires i < |lines|
    ensures TabOf(lines[..i + 1], category) == TabLine(TabOf(lines[..i], category), lines[i], category)
  {
    assert lines[..i + 1][..i] == lines[..i];
  }

  /** `loadCategoryItems(model, category)`. */
  method LoadCategoryItems(lines: seq<string>, category: string) returns (rows: seq<TabRow>)
    ensures rows == TabOf(lines, category)
  {
    rows := [];
    var i := 0;
    while i < |lines|
      invariant 0 <= i <= |lines|
      invariant rows == TabOf(lines[..i], category)
    {
      TabStep(lines, i, category);
      var parts := JavaSplit(lines[i], [Comma]);
      if |parts| == 3 && EqualsIgnoreCase(parts[2], category) {
        rows := rows + [TabRow(parts[0], parts[1])];
      }
      i := i + 1;
    }
    assert lines[..i] == lines;
  }

  /** The admin's rows of a category, case aside, as a tab lists them. */
  function InCategory(menu: seq<MenuRow>, category: string): seq<TabRow> {
    if menu == [] then []
    else
      var rows := InCategory(menu[..|menu| - 1], category);
      var r := menu[|menu| - 1];
      if EqualsIgnoreCase(r.category, category) then rows + [TabRow(r.item, r.price)] else rows
  }

  /** A category tab lists exactly the menu table's rows of that category, in file order. */
  lemma {:induction false} TabIsMenuFilter(lines: seq<string>, category: string)
    ensures TabOf(lines, category) == InCategory(MenuOf(lines), category)
  {
    if lines != [] {
      var init := lines[..|lines| - 1];
      TabIsMenuFilter(init, category);
      match ReadMenuLine(lines[|lines| - 1])
      case None =>
      case Some(r) =>
        var m := MenuOf(init) + [r];
        assert m[..|m| - 1] == MenuOf(init);
    }
  }

  /** After `saveMenu`, each tab shows the saved rows of its category. */
  lemma SavedMenuTabs(rows: seq<MenuRow>, category: string)
    requires forall k :: 0 <= k < |rows| ==> Storable(rows[k])
    ensures TabOf(MenuFile(rows), category) == InCategory(rows, category)
  {
    TabIsMenuFilter(MenuFile(rows), category);
    MenuRoundTrip(rows);
  }
}
