/** Value types shared by the PMID-manager account store and its service. */
module PmidTypes {

  type Bytes = seq<bv8>

  /** An identity: the name of an account (a PMID node), of a chunk, or of a vault. */
  type Name = Bytes

  /** A routing node id. */
  type NodeId = Bytes

  /** The C++ int32_t and int64_t. */
  type Int32 = x: int | -0x8000_0000 <= x < 0x8000_0000
  type Int64 = x: int | -0x8000_0000_0000_0000 <= x < 0x8000_0000_0000_0000

  /** The key of one stored item: its data type, its name and the account that owns it. */
  datatype EntryKey = EntryKey(dataType: nat, name: Name, groupName: Name)

  /** One key/value pair of an account's contents; the value is kept serialised. */
  datatype Entry = Entry(key: EntryKey, value: Bytes)

  /** A data name as sent to a PMID node: type and name, without the owner. */
  datatype DataName = DataName(dataType: nat, name: Name)

  /** The error codes the modelled code raises or reports (CommonErrors / VaultErrors). */
  datatype ErrorCode = Ok | NoSuchAccount | NoSuchElement | ParsingError

  /** ActionPmidManagerPut: the stored size and the request's message id. */
  datatype PutAction = PutAction(size: Int32, messageId: Int32)

  /** ActionPmidManagerDelete. */
  datatype DeleteAction = DeleteAction

  /** ActionPmidManagerSetAvailableSize: the size a PMID node reports as available. */
  datatype SetAvailableSizeAction = SetAvailableSizeAction(availableSize: Int64)
}
