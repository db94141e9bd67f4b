/**
 * District selection from a reverse-geocoding address
 * (`selectDistrict` in apps/backend/src/services/locationService.ts).
 */
module LocationService {
  import opened Common

  /** The address keys consulted, most specific first. */
  const DistrictKeys: seq<string> :=
    ["city_district", "state_district", "county", "suburb", "neighbourhood", "city", "town", "village"]

  /** `address[keys[0]] ?? address[keys[1]] ?? ... ?? null`: a present key wins even with an empty value. */
  function FirstPresent(address: map<string, string>, keys: seq<string>): (r: Option<string>)
    ensures r.None? <==> forall i | 0 <= i < |keys| :: keys[i] !in address
    ensures r.Some? ==> r.value in address.Values
  {
    if |keys| == 0 then None
    else if keys[0] in address then Some(address[keys[0]])
    else FirstPresent(address, keys[1..])
  }

  /** The value under the first present key is the one chosen. */
  lemma {:induction false} FirstPresentIsFirst(address: map<string, string>, keys: seq<string>, i: nat)
    requires i < |keys| && keys[i] in address
    requires forall j | 0 <= j < i :: keys[j] !in address
    ensures FirstPresent(address, keys) == Some(address[keys[i]])
  {
    if i > 0 {
      FirstPresentIsFirst(address, keys[1..], i - 1);
    }
  }

  /**
   * `selectDistrict(address)`: no address gives `null`; otherwise the value of
   * the first district key present, or `null` when none is.
   */
  function SelectDistrict(address: Option<map<string, string>>): (r: Option<string>)
    ensures address.None? ==> r.None?
    ensures r.Some? ==> address.Some? && r.value in address.value.Values
    ensures address.Some? ==> (r.None? <==> forall k | k in DistrictKeys :: k !in address.value)
  {
    if address.None? then None else FirstPresent(address.value, DistrictKeys)
  }

  /** The priority order: the first present key of the list decides, whatever follows. */
  lemma SelectDistrictPriority(address: map<string, string>, i: nat)
    requires i < |DistrictKeys| && DistrictKeys[i] in address
    requires forall j | 0 <= j < i :: DistrictKeys[j] !in address
    ensures SelectDistrict(Some(address)) == Some(address[DistrictKeys[i]])
  {
    FirstPresentIsFirst(address, DistrictKeys, i);
  }

  /** A present key with an empty value still wins over later keys. */
  lemma EmptyValueWins()
    ensures SelectDistrict(Some(map["county" := "", "city" := "Pune"])) == Some("")
  {
    var address := map["county" := "", "city" := "Pune"];
    SelectDistrictPriority(address, 2);
  }
}
