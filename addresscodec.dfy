/**
 * The address aggregate of the listing (server/server.js lines 156-158 and
 * 183-190): the query concatenates each matching address into one text
 * field, and the handler splits it back into address objects.
 */
module AddressCodec {
  import opened Wrappers
  import opened Text
  import opened Schema

  /**
   * One decoded address as the listing answers it. The id stays text, and a
   * field is None (`undefined`) when the item had too few `::` parts.
   */
  datatype AddressView = AddressView(
    id: Option<string>, address_details: Option<string>, city: Option<string>,
    state: Option<string>, pin_code: Option<string>)

  /** `a.id || '::' || a.address_details || '::' || a.city || '::' || a.state || '::' || a.pin_code` */
  function EncodeItem(a: AddressRow): string {
    IntText(a.id) + "::" + a.address.address_details + "::" + a.address.city + "::"
      + a.address.state + "::" + a.address.pin_code
  }

  function ItemFields(a: AddressRow): seq<string> {
    [IntText(a.id), a.address.address_details, a.address.city, a.address.state, a.address.pin_code]
  }

  lemma EncodeItemIsJoin(a: AddressRow)
    ensures EncodeItem(a) == Join(ItemFields(a), "::")
  {
    var f := ItemFields(a);
    var sep := "::";
    assert f[4..] == [f[4]];
    assert Join(f[4..], sep) == f[4];
    assert f[3..][1..] == f[4..];
    assert Join(f[3..], sep) == f[3] + sep + f[4];
    assert f[2..][1..] == f[3..];
    assert Join(f[2..], sep) == f[2] + sep + (f[3] + sep + f[4]);
    assert f[1..][1..] == f[2..];
    assert Join(f[1..], sep) == f[1] + sep + (f[2] + sep + (f[3] + sep + f[4]));
    assert Join(f, sep) == f[0] + sep + (f[1] + sep + (f[2] + sep + (f[3] + sep + f[4])));
  }

  function EncodeAll(rows: seq<AddressRow>): (items: seq<string>)
    ensures |items| == |rows|
    ensures forall i :: 0 <= i < |rows| ==> items[i] == EncodeItem(rows[i])
  {
    seq(|rows|, i requires 0 <= i < |rows| => EncodeItem(rows[i]))
  }

  /** `GROUP_CONCAT(item)` with its default separator: NULL when no row contributes. */
  function Aggregate(rows: seq<AddressRow>): Option<string> {
    if rows == [] then None else Some(Join(EncodeAll(rows), ","))
  }

  /** Destructuring `[id, address_details, city, state, pin_code]`: a missing element is undefined. */
  function Part(parts: seq<string>, i: nat): Option<string> {
    if i < |parts| then Some(parts[i]) else None
  }

  /** `str.split("::")` destructured into an address object. */
  function DecodeItem(item: string): AddressView {
    var p := Split(item, "::");
    AddressView(Part(p, 0), Part(p, 1), Part(p, 2), Part(p, 3), Part(p, 4))
  }

  /** `row.addresses ? row.addresses.split(",").map(...) : []` */
  function Decode(aggregate: Option<string>): (views: seq<AddressView>)
    ensures aggregate.None? ==> views == []
  {
    if aggregate.None? || aggregate.value == [] then []
    else
      var items := Split(aggregate.value, ",");
      seq(|items|, i requires 0 <= i < |items| => DecodeItem(items[i]))
  }

  /** The object the listing should show for a stored address. */
  function View(a: AddressRow): AddressView {
    AddressView(Some(IntText(a.id)), Some(a.address.address_details), Some(a.address.city),
      Some(a.address.state), Some(a.address.pin_code))
  }

  function Views(rows: seq<AddressRow>): (views: seq<AddressView>)
    ensures |views| == |rows|
    ensures forall i :: 0 <= i < |rows| ==> views[i] == View(rows[i])
  {
    seq(|rows|, i requires 0 <= i < |rows| => View(rows[i]))
  }

  /** No text field of the address holds a `,` or a `:`. */
  predicate Clean(a: AddressRow) {
    && Avoids(a.address.address_details, ',') && Avoids(a.address.address_details, ':')
    && Avoids(a.address.city, ',') && Avoids(a.address.city, ':')
    && Avoids(a.address.state, ',') && Avoids(a.address.state, ':')
    && Avoids(a.address.pin_code, ',') && Avoids(a.address.pin_code, ':')
  }

  lemma IntTextAvoids(n: int, c: char)
    requires c == ',' || c == ':'
    ensures Avoids(IntText(n), c)
  {
  }

  /** A clean item decodes to the address it encodes, and holds no comma. */
  lemma ItemRoundTrip(a: AddressRow)
    requires Clean(a)
    ensures DecodeItem(EncodeItem(a)) == View(a)
    ensures Avoids(EncodeItem(a), ',')
  {
    var f := ItemFields(a);
    EncodeItemIsJoin(a);
    IntTextAvoids(a.id, ':');
    IntTextAvoids(a.id, ',');
    assert forall k :: 0 <= k < |f| ==> Avoids(f[k], ':');
    assert forall k, i :: 0 <= k < |f| && 0 <= i < |f[k]| ==> f[k][i] != "::"[0] by {
      forall k, i | 0 <= k < |f| && 0 <= i < |f[k]| ensures f[k][i] != "::"[0] {
        assert Avoids(f[k], ':');
      }
    }
    SplitJoin(f, "::");
    assert forall k :: 0 <= k < |f| ==> Avoids(f[k], ',');
    JoinAvoids(f, "::", ',');
  }

  /**
   * Decoding the aggregate gives back one object per address, field for
   * field, provided no field holds a `,` or a `:`; no address rows (a NULL
   * aggregate) decode to the empty list.
   */
  lemma RoundTrip(rows: seq<AddressRow>)
    requires forall i :: 0 <= i < |rows| ==> Clean(rows[i])
    ensures Decode(Aggregate(rows)) == Views(rows)
  {
    if rows != [] {
      var items := EncodeAll(rows);
      forall i | 0 <= i < |rows| ensures Avoids(items[i], ',') && DecodeItem(items[i]) == View(rows[i]) {
        ItemRoundTrip(rows[i]);
      }
      assert forall k, i :: 0 <= k < |items| && 0 <= i < |items[k]| ==> items[k][i] != ","[0] by {
        forall k, i | 0 <= k < |items| && 0 <= i < |items[k]| ensures items[k][i] != ","[0] {
          assert Avoids(items[k], ',');
        }
      }
      SplitJoin(items, ",");
      var agg := Join(items, ",");
      assert |items[0]| > 0 by {
        assert |EncodeItem(rows[0])| >= 2;
      }
      assert agg != [] by {
        if |items| > 1 {
          assert agg == items[0] + "," + Join(items[1..], ",");
        }
      }
      assert Aggregate(rows) == Some(agg);
      var decoded := Decode(Some(agg));
      assert |decoded| == |rows|;
      forall i | 0 <= i < |rows| ensures decoded[i] == View(rows[i]) {
        assert decoded[i] == DecodeItem(items[i]);
      }
    }
  }

  /**
   * The delimiters are not escaped: one address whose details hold a comma
   * comes back as two or more objects.
   */
  lemma CommaInDetailsSplitsAddress(a: AddressRow, i: int)
    requires 0 <= i < |a.address.address_details| && a.address.address_details[i] == ','
    ensures |Decode(Aggregate([a]))| >= 2
    ensures Decode(Aggregate([a])) != Views([a])
  {
    var item := EncodeItem(a);
    var prefix := IntText(a.id) + "::";
    var rest := a.address.address_details + "::" + a.address.city + "::" + a.address.state + "::" + a.address.pin_code;
    assert item == prefix + rest;
    assert rest[i] == ',';
    CountPositive(rest, ',', i);
    CountConcat(prefix, rest, ',');
    assert Join(EncodeAll([a]), ",") == item;
    SplitCount(item, ',');
  }
}
