/** The call opcodes of src/usbnet.h. */
module Opcodes {
  import opened Bytes
  import opened Protobase

  const USB_INIT: byte := CALL_TYPE + 1
  const USB_FIND_BUSSES: byte := CALL_TYPE + 2
  const USB_FIND_DEVICES: byte := CALL_TYPE + 3
  const USB_OPEN: byte := CALL_TYPE + 5
  const USB_CLOSE: byte := CALL_TYPE + 6
  const USB_CONTROL_MSG: byte := CALL_TYPE + 7
  const USB_CLAIM_INTERFACE: byte := CALL_TYPE + 8
  const USB_RELEASE_INTERFACE: byte := CALL_TYPE + 9
  const USB_GET_KERNEL_DRIVER: byte := CALL_TYPE + 10
  const USB_DETACH_KERNEL_DRIVER: byte := CALL_TYPE + 11
  const USB_BULK_READ: byte := CALL_TYPE + 12
  const USB_BULK_WRITE: byte := CALL_TYPE + 13
  const USB_SET_CONFIGURATION: byte := CALL_TYPE + 14
  const USB_SET_ALTINTERFACE: byte := CALL_TYPE + 15
  const USB_RESET_EP: byte := CALL_TYPE + 16
  const USB_CLEAR_HALT: byte := CALL_TYPE + 17
  const USB_RESET: byte := CALL_TYPE + 18
  const USB_INTERRUPT_READ: byte := CALL_TYPE + 19
  const USB_INTERRUPT_WRITE: byte := CALL_TYPE + 20
}
