/** How an operation of the tool fails: a message and exit(1), a failed assert, or a bad access. */
module Results {
  datatype Option<+T> = None | Some(value: T)

  datatype Failure =
    | PartitionTooBig       // "partition too big"
    | FlashEntryMissing     // assert(flash_parts[j].name)
    | TableOverflow         // "partition table overflow?"
    | SysupgradeRangeMissing // assert(flash_first_partition && flash_last_partition) and the index assert
    | LastPartMissing       // assert(image_last_partition)
    | OutsideBuffer         // a copy that leaves the allocated image
    | NoHeader              // the table does not start with its header word
    | BadLine               // "Ignoring the rest of the partition entries."
    | TableFull             // "No free flash part entry available."
    | NullName              // strcmp on the name of an empty entry
    | NotFound              // "Error can not find ... partition"
    | CannotOpen            // "Can not open output file"

  datatype Result<+T> = Ok(value: T) | Err(error: Failure)
}
