/**
 * Editing an existing customer (app.py:845-867, 911-922). The form's four
 * text boxes are read first; when an existing customer is selected, the
 * handler then overwrites those four values with the stored row's own values
 * ("Load existing") before the UPDATE writes them. As written, an edit
 * therefore writes the row back unchanged. The model keeps that behaviour as
 * `LoadedAsWritten` and uses the evidently intended `Edited` elsewhere.
 */
module CustomerEdit {
  import opened Schema

  /** The name, phone, shop and area boxes of the customer form. */
  datatype Fields = Fields(name: string, phone: string, shop: string, area: string)

  /** `UPDATE customers SET name, phone, shop, area WHERE id` (app.py:913-920). */
  function Write(stored: Customer, values: Fields): (r: Customer)
    ensures r.active == stored.active
    ensures Fields(r.name, r.phone, r.shop, r.area) == values
  {
    stored.(name := values.name, phone := values.phone, shop := values.shop, area := values.area)
  }

  /**
   * The values the UPDATE receives as the code stands (app.py:860-867): the
   * stored ones, so writing them gives back the stored row.
   */
  function LoadedAsWritten(stored: Customer, typed: Fields): (values: Fields)
    ensures Write(stored, values) == stored
  {
    Fields(stored.name, stored.phone, stored.shop, stored.area)
  }

  /** As written, whatever is typed, the edit leaves the row as it was. */
  lemma EditAsWrittenKeepsRow(stored: Customer, typed: Fields)
    ensures Write(stored, LoadedAsWritten(stored, typed)) == stored
  {
  }

  /** A concrete edit whose new phone number is lost. */
  lemma EditAsWrittenLosesPhone()
    ensures var stored := Customer("Ravi", "111", "Ravi Stores", "North", true);
      Write(stored, LoadedAsWritten(stored, Fields("Ravi", "222", "Ravi Stores", "North"))).phone == "111"
  {
  }

  /**
   * The evidently intended edit: the same `Write` as the UPDATE, given the
   * typed values instead of the reloaded ones. The typed values are stored,
   * the active flag is kept, and writing the same values again changes nothing.
   */
  function Edited(stored: Customer, typed: Fields): (r: Customer)
    ensures r.name == typed.name && r.phone == typed.phone && r.shop == typed.shop && r.area == typed.area
    ensures r.active == stored.active
    ensures Write(r, typed) == r
  {
    Write(stored, typed)
  }
}
