// The messages exchanged with WebInspector and the values they carry.

module Rpc {
  import opened Wrappers

  /** An octet. */
  type Byte = x: int | 0 <= x < 256

  type Bytes = seq<Byte>

  /** The largest value of an unsigned 32-bit integer. */
  const U32_MAX: nat := 0xFFFF_FFFF

  datatype PageType = Unknown | JavaScript | WebPage

  datatype RpcApp = RpcApp(appId: string, appName: string, isProxy: bool)

  datatype RpcPage = RpcPage(
    pageId: nat,
    pageType: PageType,
    connectionId: Option<string>,
    title: Option<string>,
    url: Option<string>)

  /** What a device reports, after the selector and the argument dictionary have been decoded. */
  datatype RpcMessage =
    | ReportSetup
    | ReportConnectedApplicationList(apps: seq<RpcApp>)
    | ApplicationConnected(app: RpcApp)
    | ApplicationDisconnected(app: RpcApp)
    | ApplicationSentListing(appId: string, pages: seq<RpcPage>)
    | ApplicationSentData(sourceAppId: string, destId: string, data: Bytes)
    | ApplicationUpdated(hostAppId: string, updatedId: string)
    | UnknownSelector(selector: string)

  /** What a WebSocket client sends to the proxy core. */
  datatype WsMessage = WsMessage(pageNum: nat, wsId: string, data: Bytes, isClose: bool)

  /** A WebSocket client's return channel; channels are named by numbers. */
  datatype Registration = Registration(pageNum: nat, wsId: string, channel: nat)

  /** Device data put into the channel of a WebSocket client. */
  datatype Delivery = Delivery(channel: nat, data: Bytes)

  /**
   * A message handed to the device's write channel. On the wire an entry carries
   * the application, the page identifier and the sender; `pageNum` (the proxy's own page
   * number) and `wsId` (the client whose frame is forwarded) only annotate the log.
   */
  datatype Sent =
    | SentIdentifier
    | SentGetListing(appId: string)
    | SentSetup(pageNum: nat, appId: string, pageId: nat, senderId: string)
    | SentData(pageNum: nat, appId: string, pageId: nat, senderId: string, data: Bytes, wsId: string)
    | SentDidClose(pageNum: nat, appId: string, pageId: nat, senderId: string)

  datatype DeviceInfo = DeviceInfo(deviceId: string, deviceName: string, osVersion: nat, port: nat)
}
