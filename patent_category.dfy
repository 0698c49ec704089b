/** The registry's patent categories, each with a numeric id and a display name. */
module PatentCategory {
  import opened Wrappers

  datatype Category = Invention | UtilityModel | SelectionAchievement | Trademark | WellKnownTrademark {
    function Id(): int {
      match this
      case Invention => 1
      case UtilityModel => 2
      case SelectionAchievement => 3
      case Trademark => 4
      case WellKnownTrademark => 5
    }

    function Name(): string {
      match this
      case Invention => "Изобретения"
      case UtilityModel => "Полезные модели"
      case SelectionAchievement => "Селекционные достижения"
      case Trademark => "Товарные знаки"
      case WellKnownTrademark => "Общеизвестные товарные знаки"
    }
  }

  /** The categories in declaration order, as values() lists them. */
  const Values: seq<Category> := [Invention, UtilityModel, SelectionAchievement, Trademark, WellKnownTrademark]

  /** The id and name lookup tables, filled once by putting every category in declaration order. */
  method BuildLookupTables() returns (byId: map<int, Category>, byName: map<string, Category>)
    ensures forall c :: c in Values ==> c.Id() in byId && byId[c.Id()] == c
    ensures forall c :: c in Values ==> c.Name() in byName && byName[c.Name()] == c
    ensures forall id :: (id in byId) == FromId(id).Some? && (id in byId ==> FromId(id) == Some(byId[id]))
    ensures forall n :: (n in byName) == FromName(n).Some? && (n in byName ==> FromName(n) == Some(byName[n]))
  {
    byId := map[];
    byName := map[];
    for i := 0 to |Values|
      invariant forall c :: c in Values[..i] ==> c.Id() in byId && byId[c.Id()] == c
      invariant forall c :: c in Values[..i] ==> c.Name() in byName && byName[c.Name()] == c
      invariant forall id :: id in byId ==> byId[id].Id() == id
      invariant forall n :: n in byName ==> byName[n].Name() == n
    {
      var c := Values[i];
      byId := byId[c.Id() := c];
      byName := byName[c.Name() := c];
      assert Values[..i + 1] == Values[..i] + [c];
    }
    assert Values[..|Values|] == Values;
    forall id | id in byId ensures FromId(id) == Some(byId[id]) {
      FromIdInvertsId(byId[id], id);
    }
    forall n | n in byName ensures FromName(n) == Some(byName[n]) {
      FromNameInvertsName(byName[n], n);
    }
  }

  /** fromId: the category with this id, or null. */
  function FromId(id: int): (r: Option<Category>)
    ensures r.Some? ==> r.value.Id() == id
  {
    if id == 1 then Some(Invention)
    else if id == 2 then Some(UtilityModel)
    else if id == 3 then Some(SelectionAchievement)
    else if id == 4 then Some(Trademark)
    else if id == 5 then Some(WellKnownTrademark)
    else None
  }

  /** fromName: the category with this display name, or null. */
  function FromName(name: string): (r: Option<Category>)
    ensures r.Some? ==> r.value.Name() == name
  {
    if name == Invention.Name() then Some(Invention)
    else if name == UtilityModel.Name() then Some(UtilityModel)
    else if name == SelectionAchievement.Name() then Some(SelectionAchievement)
    else if name == Trademark.Name() then Some(Trademark)
    else if name == WellKnownTrademark.Name() then Some(WellKnownTrademark)
    else None
  }

  /** Ids are 1 to 5 and identify their category: fromId inverts getId and knows nothing else. */
  lemma FromIdInvertsId(c: Category, id: int)
    ensures FromId(c.Id()) == Some(c)
    ensures FromId(id).Some? <==> 1 <= id <= 5
    ensures FromId(id) == Some(c) <==> c.Id() == id
  {
  }

  /** Names identify their category: fromName inverts getName. */
  lemma FromNameInvertsName(c: Category, name: string)
    ensures FromName(c.Name()) == Some(c)
    ensures FromName(name) == Some(c) <==> c.Name() == name
  {
  }
}
