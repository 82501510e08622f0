/** struct roar_event. Of arg2, what can be read there is kept, None standing for NULL; it may
    be less or more than arg2_len says. Of the flags only the two that are defined appear. */
module Events {
  import opened CInt
  import opened Util

  datatype Event = Event(
    nettrans: bool,
    proxyEvent: bool,
    event: uint32,
    eventProxy: uint32,
    emitter: int32,
    target: int32,
    targetType: int32,
    arg0: int32,
    arg1: int32,
    arg2: Option<seq<byte>>,
    arg2Len: int)
}
