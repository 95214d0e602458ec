/**
 * The parts of Shaka Player's networking engine that the license code
 * touches: the type of a request, and the request and response objects that
 * request and response filters receive and change in place.
 */
module ShakaNet {
  import opened Bytes

  /** `shaka.net.NetworkingEngine.RequestType`. */
  datatype RequestType = Manifest | Segment | License | App | Timing | ServerCertificate

  /**
   * A request body. Shaka hands a filter the challenge as an `ArrayBuffer`
   * (`Binary`); after the Widevine filter has run, the body is a string
   * (`Text`).
   */
  datatype Body = Binary(bytes: seq<Byte>) | Text(text: string)

  /** `shaka.extern.Request`: the fields the filters read or assign. */
  class Request {
    var body: Body
    var headers: map<string, string>
    var allowCrossSiteCredentials: bool

    constructor (body: Body, headers: map<string, string>, allowCrossSiteCredentials: bool)
      ensures this.body == body && this.headers == headers
      ensures this.allowCrossSiteCredentials == allowCrossSiteCredentials
    {
      this.body := body;
      this.headers := headers;
      this.allowCrossSiteCredentials := allowCrossSiteCredentials;
    }
  }

  /** `shaka.extern.Response`: its `data` is what the CDM is fed. */
  class Response {
    var data: seq<Byte>

    constructor (data: seq<Byte>)
      ensures this.data == data
    {
      this.data := data;
    }
  }
}
