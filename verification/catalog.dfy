/** A catalogue record as the view and the roulette see it. Characters and
    bosses share one record shape in the source; a character carries a
    rarity, weapon and element, a boss carries a group. An empty string
    stands for an absent text field. */
module Catalog {
  import opened Wrappers

  datatype Lang = Ru | En | Zh | Ja | Ko

  datatype Item = Item(
    id: string,
    name: string,
    nameRu: string,
    nameZh: string,
    nameJa: string,
    nameKo: string,
    rarity: Option<int>,
    weapon: string,
    element: string,
    group: string,
    image: string,
    imageFallbacks: seq<string>,
    splash: string,
    splashFallbacks: seq<string>)

  /** `a || b` on strings. */
  function Or(a: string, b: string): (r: string)
    ensures a != "" ==> r == a
    ensures a == "" ==> r == b
  {
    if a != "" then a else b
  }

  /** The record's own name in a language other than English. */
  function Translation(item: Item, lang: Lang): string
    requires lang != En
  {
    match lang
    case Ru => item.nameRu
    case Zh => item.nameZh
    case Ja => item.nameJa
    case Ko => item.nameKo
  }

  /** `getItemName`: the display name in `lang` is the record's name in
      that language when it has one, and the English name otherwise. */
  function ItemName(item: Item, lang: Lang): (r: string)
    ensures lang == En ==> r == item.name
    ensures lang != En && Translation(item, lang) != "" ==> r == Translation(item, lang)
    ensures lang != En && Translation(item, lang) == "" ==> r == item.name
    ensures r == item.name || r == item.nameRu || r == item.nameZh || r == item.nameJa || r == item.nameKo
    ensures r == "" ==> item.name == ""
  {
    match lang
    case Ru => Or(item.nameRu, item.name)
    case Zh => Or(item.nameZh, item.name)
    case Ja => Or(item.nameJa, item.name)
    case Ko => Or(item.nameKo, item.name)
    case En => item.name
  }

  function Ids(items: seq<Item>): (r: seq<string>)
    ensures |r| == |items|
    ensures forall i :: 0 <= i < |items| ==> r[i] == items[i].id
  {
    seq(|items|, i requires 0 <= i < |items| => items[i].id)
  }

  function IdSet(items: seq<Item>): (r: set<string>)
    ensures forall id :: id in r <==> exists i :: 0 <= i < |items| && items[i].id == id
  {
    set i | 0 <= i < |items| :: items[i].id
  }
}
