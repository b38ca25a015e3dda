/** What the device answers to one operation: a value, or a response code other than OK. */
module DeviceReply {
  import opened Bytes
  import opened UsbPort

  type ErrCode = c: u16 | c != RC_OK witness RC_GENERAL_ERROR

  datatype Reply<T> = Ok(value: T) | Err(code: ErrCode)
}
