/** The client's category palette: the colours a category can take, with
    the style classes of each, the lookup of a stored colour name, and the
    icon names offered when editing a category. */
module CategoryUtils {
  import opened Wrappers
  import opened Seqs

  /** One palette entry: its name, the stored value and four style classes. */
  datatype CategoryColor = CategoryColor(
    name: string,
    value: string,
    bgClass: string,
    textClass: string,
    lightBgClass: string,
    darkTextClass: string)

  /** The icon names offered for a category. */
  const CATEGORY_ICON_NAMES: seq<string> := [
    "briefcase-business", "car-front", "heart-pulse", "piggy-bank",
    "shopping-cart", "ticket", "tool-case", "utensils",
    "paw-print", "house", "gift", "dumbbell",
    "book-open", "baggage-claim", "mailbox", "receipt-text"
  ]

  /** The entry for colour `name`: stored as `<name>-base`, with the classes
      `bg-<name>-base`, `text-<name>-base`, `bg-<name>-light` and
      `text-<name>-dark`. Each of the seven entries of the palette is written
      out in full in the client and follows this pattern exactly. */
  function Entry(name: string): (c: CategoryColor)
    ensures c.name == name
  {
    CategoryColor(name, name + "-base", "bg-" + name + "-base", "text-" + name + "-base",
                  "bg-" + name + "-light", "text-" + name + "-dark")
  }

  /** The palette, green first. */
  const CATEGORY_COLORS: seq<CategoryColor> := [
    Entry("green"), Entry("blue"), Entry("purple"), Entry("pink"),
    Entry("red"), Entry("orange"), Entry("yellow")
  ]

  /** The palette has seven entries with distinct names, green first. */
  lemma PaletteNamesDistinct()
    ensures |CATEGORY_COLORS| == 7 && CATEGORY_COLORS[0].name == "green"
    ensures forall i, j :: 0 <= i < j < |CATEGORY_COLORS| ==> CATEGORY_COLORS[i].name != CATEGORY_COLORS[j].name
  {
  }

  /** The sixteen icon names are distinct. */
  lemma IconNamesDistinct()
    ensures |CATEGORY_ICON_NAMES| == 16
    ensures forall i, j :: 0 <= i < j < |CATEGORY_ICON_NAMES| ==> CATEGORY_ICON_NAMES[i] != CATEGORY_ICON_NAMES[j]
  {
  }

  /** `getCategoryColor`: the palette entry with the stored name, or the
      green entry when no entry has it. */
  function GetCategoryColor(colorName: string): (c: CategoryColor)
    ensures c in CATEGORY_COLORS
    ensures (exists e :: e in CATEGORY_COLORS && e.name == colorName) ==> c.name == colorName
    ensures (forall e :: e in CATEGORY_COLORS ==> e.name != colorName) ==> c == CATEGORY_COLORS[0]
  {
    Find(CATEGORY_COLORS, (e: CategoryColor) => e.name == colorName).GetOr(CATEGORY_COLORS[0])
  }

  /** Since the names are distinct, the entry found is the one entry with
      that name, and looking up an entry's own name finds it. */
  lemma LookupFindsOwnEntry(i: nat)
    requires i < |CATEGORY_COLORS|
    ensures GetCategoryColor(CATEGORY_COLORS[i].name) == CATEGORY_COLORS[i]
  {
    PaletteNamesDistinct();
    var c := GetCategoryColor(CATEGORY_COLORS[i].name);
    var k :| 0 <= k < |CATEGORY_COLORS| && CATEGORY_COLORS[k] == c;
    assert k == i;
  }

  /** A colour that is not in the palette, and the empty name a category
      without a colour carries, both fall back to green. */
  lemma UnknownColorIsGreen()
    ensures GetCategoryColor("").name == "green"
    ensures GetCategoryColor("black").name == "green"
  {
    PaletteNamesDistinct();
  }
}
