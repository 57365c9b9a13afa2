/** Result, option and error types shared by every component. */
module Common {

  datatype Option<+T> = None | Some(value: T)

  /** The errors of src/error.rs that the modelled operations can return. */
  datatype RmqError =
    | TopicNotFound(topic: string)
    | PartitionOutOfRange(topic: string, partition: int)
    | OffsetOutOfRange(topic: string, partition: int, offset: int)
    | GroupNotFound(group: string)
    | BrokerShutdown
    | Custom(reason: string)

  datatype Result<+T> = Ok(value: T) | Err(error: RmqError)

  datatype TopicPartition = TopicPartition(topic: string, partition: int)

  type byte = x: int | 0 <= x < 256

  type Bytes = seq<byte>
}
