/**
 * The client's call to the license server, with the network abstracted
 * away: the request it sends, the per-installation device id it persists,
 * and how the transport outcome becomes a license response.
 */
module LicenseCheck {
  import opened Wrappers

  /** The reply the client decodes: a status word and, optionally, the expiry in epoch milliseconds. */
  datatype LicenseResponse = LicenseResponse(status: string, expiresAt: Option<int>)

  /** The JSON body posted to the verification endpoint. */
  datatype LicenseRequest = LicenseRequest(key: string, deviceId: string)

  /** What came back over the network: no data, bytes that do not decode, or a decoded reply. */
  datatype Reply = NoData | Undecodable | Decoded(response: LicenseResponse)

  const ValidStatus: string := "valid"
  const ExpiredStatus: string := "expired"
  const InvalidStatus: string := "invalid"
  const ErrorStatus: string := "error"

  /** The key under which the device id is kept in the user defaults. */
  const DeviceIdKey: string := "com.raftBrowser.deviceId"

  /**
   * The response handed to the caller. An unbuildable URL yields "error";
   * a missing or undecodable reply yields "invalid"; otherwise the decoded
   * reply is passed on unchanged.
   */
  function ResponseFor(urlBuilt: bool, reply: Reply): (r: LicenseResponse)
    ensures !urlBuilt ==> r.status == ErrorStatus && r.expiresAt.None?
    ensures urlBuilt && !reply.Decoded? ==> r.status == InvalidStatus && r.expiresAt.None?
    ensures urlBuilt && reply.Decoded? ==> r == reply.response
    ensures r.status == ValidStatus ==> urlBuilt && reply == Decoded(r)
  {
    if !urlBuilt then LicenseResponse(ErrorStatus, None)
    else match reply
      case Decoded(resp) => resp
      case _ => LicenseResponse(InvalidStatus, None)
  }

  /**
   * Reading the device id from a user-defaults dictionary: the stored id
   * when there is one, otherwise the host name (or, lacking one, a fresh
   * UUID), which is then stored. Returns the id and the new dictionary.
   */
  function ReadDeviceId(store: map<string, string>, hostName: Option<string>, uuid: string)
    : (r: (string, map<string, string>))
    ensures DeviceIdKey in r.1 && r.1[DeviceIdKey] == r.0
    ensures DeviceIdKey in store ==> r.0 == store[DeviceIdKey] && r.1 == store
    ensures DeviceIdKey !in store ==> r.0 == hostName.GetOr(uuid)
    ensures r.1.Keys == store.Keys + {DeviceIdKey}
    ensures forall k :: k in store && k != DeviceIdKey ==> r.1[k] == store[k]
  {
    if DeviceIdKey in store then (store[DeviceIdKey], store)
    else
      var id := hostName.GetOr(uuid);
      (id, store[DeviceIdKey := id])
  }

  /** Once an id has been read, every later read returns it and leaves the store alone. */
  lemma DeviceIdStable(store: map<string, string>, h1: Option<string>, u1: string,
                       h2: Option<string>, u2: string)
    ensures var (id, after) := ReadDeviceId(store, h1, u1);
            ReadDeviceId(after, h2, u2) == (id, after)
  {
  }

  /** The key/value store of per-user settings (`UserDefaults.standard`). */
  class UserDefaults {
    var strings: map<string, string>

    constructor (initial: map<string, string>)
      ensures strings == initial
    {
      strings := initial;
    }

    /** `persistentDeviceId`: get the stored id or create and store one. */
    method PersistentDeviceId(hostName: Option<string>, uuid: string) returns (id: string)
      modifies this
      ensures (id, strings) == ReadDeviceId(old(strings), hostName, uuid)
      ensures DeviceIdKey in old(strings) ==> id == old(strings)[DeviceIdKey] && strings == old(strings)
    {
      if DeviceIdKey in strings {
        return strings[DeviceIdKey];
      }
      id := hostName.GetOr(uuid);
      strings := strings[DeviceIdKey := id];
    }
  }

  /**
   * `checkLicense`: when the endpoint URL builds, read the device id, send
   * the key with it and map what comes back; otherwise answer "error"
   * without reading the device id or sending anything.
   */
  method CheckLicense(defaults: UserDefaults, key: string, urlBuilt: bool,
                      hostName: Option<string>, uuid: string, reply: Reply)
    returns (sent: Option<LicenseRequest>, response: LicenseResponse)
    modifies defaults
    ensures response == ResponseFor(urlBuilt, reply)
    ensures !urlBuilt ==> sent.None? && defaults.strings == old(defaults.strings)
    ensures urlBuilt ==>
      var (id, after) := ReadDeviceId(old(defaults.strings), hostName, uuid);
      sent == Some(LicenseRequest(key, id)) && defaults.strings == after
  {
    if !urlBuilt {
      return None, LicenseResponse(ErrorStatus, None);
    }
    var deviceId := defaults.PersistentDeviceId(hostName, uuid);
    sent := Some(LicenseRequest(key, deviceId));
    response := ResponseFor(urlBuilt, reply);
  }
}
