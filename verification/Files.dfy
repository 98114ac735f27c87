/** A table's reference to one data file: the fields the samplers and the selection read. */
module Files {
  import opened Text

  datatype TableFile = TableFile(
    name: Text, path: Text, partitionValues: map<Text, Option<Text>>,
    sizeBytes: Option<nat>, sampleRate: Option<real>)
}
