/**
  The `InventoryManager` fixtures the repair loop is run on: three versions of a class
  whose `inventory` dictionary maps item names to quantities and is updated in place.

  Python's dynamic values appear where a version inspects them: a value is an integer,
  a string, or anything else. Float quantities are not modelled.
*/
module PyValues {
  /** A Python value as the validators see it (`bool` counts as an `int`, as in Python). */
  datatype Value = Int(i: int) | Str(s: string) | Other

  /** The exceptions the managers raise, with their messages. */
  datatype InventoryError = ValueError(message: string) | TypeError(message: string)

  /** `inventory.get(item, 0)`. */
  function Stored(inventory: map<string, int>, item: string): int
  {
    if item in inventory then inventory[item] else 0
  }

  /** Every stored quantity is non-negative. */
  ghost predicate NonNegative(inventory: map<string, int>)
  {
    forall k :: k in inventory ==> inventory[k] >= 0
  }
}

/** `src/inventory_manager.py`: quantities are checked to be non-negative numbers;
    removing keeps the key even when its quantity reaches 0. */
module Inventory {
  import opened Wrappers
  import opened PyValues

  const QuantityMessage: string := "Quantity must be a non-negative number"
  const NotFoundMessage: string := "Item not found in inventory"
  const NotEnoughMessage: string := "Not enough inventory"

  /** `add_item` on the dictionary `inv`. */
  function Add(inv: map<string, int>, item: string, quantity: Value): (r: Result<map<string, int>, InventoryError>)
    ensures r.Err? <==> !(quantity.Int? && quantity.i >= 0)
    ensures r.Err? ==> r.error == ValueError(QuantityMessage)
    ensures r.Ok? ==>
      && item in r.value && r.value[item] == Stored(inv, item) + quantity.i
      && r.value.Keys == inv.Keys + {item}
      && forall k :: k in inv && k != item ==> r.value[k] == inv[k]
  {
    if !quantity.Int? || quantity.i < 0 then Err(ValueError(QuantityMessage))
    else if item in inv then Ok(inv[item := inv[item] + quantity.i])
    else Ok(inv[item := quantity.i])
  }

  /** `remove_item` on the dictionary `inv`: the three checks in their order. */
  function Remove(inv: map<string, int>, item: string, quantity: Value): (r: Result<map<string, int>, InventoryError>)
    ensures r == Err(ValueError(QuantityMessage)) <==> !(quantity.Int? && quantity.i >= 0)
    ensures r == Err(ValueError(NotFoundMessage)) <==> quantity.Int? && quantity.i >= 0 && item !in inv
    ensures r == Err(ValueError(NotEnoughMessage)) <==>
      quantity.Int? && quantity.i >= 0 && item in inv && inv[item] < quantity.i
    ensures r.Ok? ==>
      && item in inv && r.value.Keys == inv.Keys
      && r.value[item] == inv[item] - quantity.i
      && forall k :: k in inv && k != item ==> r.value[k] == inv[k]
  {
    if !quantity.Int? || quantity.i < 0 then Err(ValueError(QuantityMessage))
    else if item !in inv then Err(ValueError(NotFoundMessage))
    else if inv[item] < quantity.i then Err(ValueError(NotEnoughMessage))
    else Ok(inv[item := inv[item] - quantity.i])
  }

  class InventoryManager {
    var inventory: map<string, int>

    constructor ()
      ensures inventory == map[]
    {
      inventory := map[];
    }

    /** `add_item`: on an error nothing changes. */
    method AddItem(item: string, quantity: Value) returns (r: Result<(), InventoryError>)
      modifies this
      ensures var a := Add(old(inventory), item, quantity);
        && (a.Err? ==> r == Err(a.error) && inventory == old(inventory))
        && (a.Ok? ==> r == Ok(()) && inventory == a.value)
    {
      if !quantity.Int? || quantity.i < 0 {
        return Err(ValueError(QuantityMessage));
      }
      if item in inventory {
        inventory := inventory[item := inventory[item] + quantity.i];
      } else {
        inventory := inventory[item := quantity.i];
      }
      r := Ok(());
    }

    /** `remove_item`: on an error nothing changes. */
    method RemoveItem(item: string, quantity: Value) returns (r: Result<(), InventoryError>)
      modifies this
      ensures var a := Remove(old(inventory), item, quantity);
        && (a.Err? ==> r == Err(a.error) && inventory == old(inventory))
        && (a.Ok? ==> r == Ok(()) && inventory == a.value)
    {
      if !quantity.Int? || quantity.i < 0 {
        return Err(ValueError(QuantityMessage));
      }
      if item !in inventory {
        return Err(ValueError(NotFoundMessage));
      }
      if inventory[item] < quantity.i {
        return Err(ValueError(NotEnoughMessage));
      }
      inventory := inventory[item := inventory[item] - quantity.i];
      r := Ok(());
    }

    /** `check_inventory`: the stored quantity, or 0 for an absent item. */
    method CheckInventory(item: string) returns (n: int)
      ensures item in inventory ==> n == inventory[item]
      ensures item !in inventory ==> n == 0
    {
      n := if item in inventory then inventory[item] else 0;
    }
  }

  /** Adding and removing keep every quantity non-negative. */
  lemma AddRemoveKeepNonNegative(inv: map<string, int>, item: string, quantity: Value)
    requires NonNegative(inv)
    ensures Add(inv, item, quantity).Ok? ==> NonNegative(Add(inv, item, quantity).value)
    ensures Remove(inv, item, quantity).Ok? ==> NonNegative(Remove(inv, item, quantity).value)
  {
    var a := Add(inv, item, quantity);
    if a.Ok? {
      forall k | k in a.value ensures a.value[k] >= 0 {
        if k != item { assert k in inv; }
      }
    }
  }

  /** Removing what was just added gives back the inventory, except that an item that
      was absent stays behind with quantity 0. */
  lemma RemoveUndoesAdd(inv: map<string, int>, item: string, q: nat)
    requires Stored(inv, item) >= 0
    ensures Add(inv, item, Int(q)).Ok?
    ensures Remove(Add(inv, item, Int(q)).value, item, Int(q))
         == Ok(if item in inv then inv else inv[item := 0])
  {
    var a := Add(inv, item, Int(q));
    assert a.Ok?;
    var r := Remove(a.value, item, Int(q));
    assert r.Ok?;
    if item in inv {
      assert r.value == inv;
    } else {
      assert r.value == inv[item := 0];
    }
  }

  /** The checked-in tests, on a new manager: an added quantity is reported back;
      a negative one is refused; removing all of an item leaves 0; removing from an
      empty inventory, a negative quantity, or more than is stored is refused. */
  lemma CheckedInTests(item: string, q: nat)
    ensures Stored(Add(map[], item, Int(q)).value, item) == q
    ensures Add(map[], "apple", Int(-5)).Err?
    ensures Stored(Remove(Add(map[], item, Int(q)).value, item, Int(q)).value, item) == 0
    ensures Remove(map[], "apple", Int(-5)).Err?
    ensures Remove(map[], "grapes", Int(2)) == Err(ValueError(NotFoundMessage))
    ensures Remove(Add(map[], "apple", Int(5)).value, "apple", Int(10)) == Err(ValueError(NotEnoughMessage))
    ensures Stored(Add(map[], "apple", Int(5)).value, "apple") == 5
    ensures Stored(map[], "grapes") == 0
  {
    RemoveUndoesAdd(map[], item, q);
  }
}

/** `build/lib/src/inventory_manager_original.py`: integer quantities; an absent item and
    too small a stock share one message, and a quantity that reaches 0 removes the key. */
module InventoryOriginal {
  import opened Wrappers
  import opened PyStr
  import opened PyValues
  import PigLatinBuild

  const QuantityMessage: string := "Quantity must be non-negative"
  const NotEnoughMessage: string := "Not enough inventory"

  /** `add_item` on the dictionary `inv`. */
  function Add(inv: map<string, int>, item: string, quantity: int): (r: Result<map<string, int>, InventoryError>)
    ensures r.Err? <==> quantity < 0
    ensures r.Err? ==> r.error == ValueError(QuantityMessage)
    ensures r.Ok? ==>
      && item in r.value && r.value[item] == Stored(inv, item) + quantity
      && r.value.Keys == inv.Keys + {item}
      && forall k :: k in inv && k != item ==> r.value[k] == inv[k]
  {
    if quantity < 0 then Err(ValueError(QuantityMessage))
    else if item in inv then Ok(inv[item := inv[item] + quantity])
    else Ok(inv[item := quantity])
  }

  /** `remove_item` on the dictionary `inv`: the key goes when its quantity reaches 0. */
  function Remove(inv: map<string, int>, item: string, quantity: int): (r: Result<map<string, int>, InventoryError>)
    ensures r == Err(ValueError(QuantityMessage)) <==> quantity < 0
    ensures r == Err(ValueError(NotEnoughMessage)) <==> quantity >= 0 && (item !in inv || inv[item] < quantity)
    ensures r.Ok? ==>
      && item in inv
      && (if inv[item] == quantity then r.value == inv - {item}
          else r.value == inv[item := inv[item] - quantity])
  {
    if quantity < 0 then Err(ValueError(QuantityMessage))
    else if item !in inv || inv[item] < quantity then Err(ValueError(NotEnoughMessage))
    else
      var left := inv[item] - quantity;
      if left == 0 then Ok(inv - {item}) else Ok(inv[item := left])
  }

  class InventoryManager {
    var inventory: map<string, int>

    constructor ()
      ensures inventory == map[]
    {
      inventory := map[];
    }

    /** `add_item`: on an error nothing changes. */
    method AddItem(item: string, quantity: int) returns (r: Result<(), InventoryError>)
      modifies this
      ensures var a := Add(old(inventory), item, quantity);
        && (a.Err? ==> r == Err(a.error) && inventory == old(inventory))
        && (a.Ok? ==> r == Ok(()) && inventory == a.value)
    {
      if quantity < 0 {
        return Err(ValueError(QuantityMessage));
      }
      if item in inventory {
        inventory := inventory[item := inventory[item] + quantity];
      } else {
        inventory := inventory[item := quantity];
      }
      r := Ok(());
    }

    /** `remove_item`: on an error nothing changes. */
    method RemoveItem(item: string, quantity: int) returns (r: Result<(), InventoryError>)
      modifies this
      ensures var a := Remove(old(inventory), item, quantity);
        && (a.Err? ==> r == Err(a.error) && inventory == old(inventory))
        && (a.Ok? ==> r == Ok(()) && inventory == a.value)
    {
      if quantity < 0 {
        return Err(ValueError(QuantityMessage));
      }
      if item !in inventory || inventory[item] < quantity {
        return Err(ValueError(NotEnoughMessage));
      }
      inventory := inventory[item := inventory[item] - quantity];
      if inventory[item] == 0 {
        inventory := inventory - {item};
      }
      r := Ok(());
    }

    /** `check_inventory`: the stored quantity, or 0 for an absent item. */
    method CheckInventory(item: string) returns (n: int)
      ensures item in inventory ==> n == inventory[item]
      ensures item !in inventory ==> n == 0
    {
      n := if item in inventory then inventory[item] else 0;
    }
  }

  /** After a successful removal the item is absent or still in stock, and every other
      quantity is as before. */
  lemma RemovedIsAbsentOrPositive(inv: map<string, int>, item: string, quantity: int)
    requires Remove(inv, item, quantity).Ok?
    ensures var r := Remove(inv, item, quantity).value;
      && (item !in r || r[item] > 0)
      && (forall k :: k != item ==> (k in r <==> k in inv))
      && (forall k :: k in r && k != item ==> r[k] == inv[k])
  {
  }

  /** Removing what was just added gives back the inventory exactly, unless the item was
      already present with quantity 0, which then disappears. */
  lemma RemoveUndoesAdd(inv: map<string, int>, item: string, q: nat)
    requires Stored(inv, item) >= 0
    ensures Add(inv, item, q).Ok?
    ensures Remove(Add(inv, item, q).value, item, q)
         == Ok(if item in inv && inv[item] == 0 then inv - {item} else inv)
  {
    var a := Add(inv, item, q);
    assert a.Ok?;
    var r := Remove(a.value, item, q);
    assert r.Ok?;
    if item in inv && inv[item] != 0 {
      assert r.value == inv;
    } else if item !in inv {
      assert r.value == inv[item := q] - {item};
      assert r.value == inv;
    } else {
      assert r.value == inv[item := q] - {item};
      assert r.value == inv - {item};
    }
  }

  /** `pig_latin` of this file: lower-case the text, split it into words, translate
      each word and join them with single spaces. */
  function PigLatin(text: string): string
  {
    var words := Words(Lower(text));
    Join(seq(|words|, k requires 0 <= k < |words| => PigLatinBuild.Translation(words[k])), " ")
  }

  /** The result has exactly as many words as the text: each is the translation of the
      text's word at the same position. */
  lemma PigLatinKeepsWords(text: string)
    ensures var words := Words(Lower(text));
      Words(PigLatin(text)) == seq(|words|, k requires 0 <= k < |words| => PigLatinBuild.Translation(words[k]))
    ensures |Words(PigLatin(text))| == |Words(Lower(text))|
  {
    var words := Words(Lower(text));
    var out := seq(|words|, k requires 0 <= k < |words| => PigLatinBuild.Translation(words[k]));
    forall k | 0 <= k < |out| ensures IsWord(out[k]) {
      PigLatinBuild.TranslationIsWord(words[k]);
    }
    WordsOfJoin(out);
  }
}

/** `env/lib/python3.12/site-packages/src/inventory_manager.py`: the item name and the
    quantity are validated, in a fixed order, before the update. */
module InventoryValidated {
  import opened Wrappers
  import opened PyValues

  const MaxNameLength: int := 1000

  /** `c.isascii()`. */
  predicate IsAscii(c: char)
  {
    c as int < 128
  }

  /** `c.isalnum()` for ASCII characters. */
  predicate IsAlnum(c: char)
  {
    'a' <= c <= 'z' || 'A' <= c <= 'Z' || '0' <= c <= '9'
  }

  /** What `add_item` accepts as a key. */
  predicate ValidName(name: string)
  {
    && name != []
    && (forall k :: 0 <= k < |name| ==> IsAscii(name[k]))
    && |name| <= MaxNameLength
    && (forall k :: 0 <= k < |name| ==> IsAlnum(name[k]) || name[k] == ' ' || name[k] == '-')
  }

  /** The validation of `add_item`, in its order. */
  function Validate(item: Value, quantity: Value): (r: Option<InventoryError>)
    ensures r == Some(TypeError("Quantity must be an integer")) <==> !quantity.Int?
    ensures r == Some(ValueError("Quantity must be non-negative")) <==> quantity.Int? && quantity.i < 0
    ensures r == Some(ValueError("Item must be a non-empty string")) <==>
      quantity.Int? && quantity.i >= 0 && !(item.Str? && item.s != [])
    ensures r == None <==> quantity.Int? && quantity.i >= 0 && item.Str? && ValidName(item.s)
  {
    if !quantity.Int? then Some(TypeError("Quantity must be an integer"))
    else if quantity.i < 0 then Some(ValueError("Quantity must be non-negative"))
    else if !item.Str? || item.s == "" then Some(ValueError("Item must be a non-empty string"))
    else if exists k :: 0 <= k < |item.s| && !IsAscii(item.s[k]) then
      Some(ValueError("Item name must contain only ASCII characters"))
    else if |item.s| > MaxNameLength then Some(ValueError("Item name is too long"))
    else if exists k :: 0 <= k < |item.s| && !IsAlnum(item.s[k]) && item.s[k] != ' ' && item.s[k] != '-' then
      Some(ValueError("Item name can only contain alphanumeric characters, spaces, or hyphens"))
    else None
  }

  /** Every key is a name `add_item` accepts. */
  ghost predicate ValidKeys(inventory: map<string, int>)
  {
    forall k :: k in inventory ==> ValidName(k)
  }

  class InventoryManager {
    var inventory: map<string, int>

    constructor ()
      ensures inventory == map[]
    {
      inventory := map[];
    }

    /** `add_item`: a rejected call changes nothing; an accepted one adds to the stored
        quantity or creates the key. */
    method AddItem(item: Value, quantity: Value) returns (r: Result<(), InventoryError>)
      modifies this
      ensures Validate(item, quantity).Some? ==>
        r == Err(Validate(item, quantity).value) && inventory == old(inventory)
      ensures Validate(item, quantity).None? ==>
        r == Ok(()) && inventory == old(inventory)[item.s := Stored(old(inventory), item.s) + quantity.i]
    {
      var rejected := Validate(item, quantity);
      if rejected.Some? {
        return Err(rejected.value);
      }
      if item.s in inventory {
        inventory := inventory[item.s := inventory[item.s] + quantity.i];
      } else {
        inventory := inventory[item.s := quantity.i];
      }
      r := Ok(());
    }
  }

  /** An accepted call keeps every key a valid name and every quantity non-negative. */
  lemma AcceptedKeepsKeys(inv: map<string, int>, item: Value, quantity: Value)
    requires ValidKeys(inv) && NonNegative(inv) && Validate(item, quantity).None?
    ensures var next := inv[item.s := Stored(inv, item.s) + quantity.i];
      ValidKeys(next) && NonNegative(next)
  {
  }

  /** The boundaries: a name of exactly 1000 characters and quantity 0 are accepted; one
      more character is refused as too long. */
  lemma Boundaries()
    ensures var name := seq(1000, _ => 'a');
      && Validate(Str(name), Int(0)) == None
      && Validate(Str(name + "a"), Int(0)) == Some(ValueError("Item name is too long"))
  {
    var name := seq(1000, _ => 'a');
    var longer := name + "a";
    assert forall k :: 0 <= k < |longer| ==> longer[k] == 'a';
  }
}
