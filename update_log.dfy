/** /var/log/malscan/updated.log: the one freshness record every plugin reads
    when it scans and overwrites when its update command finishes. */
module UpdateLog {

  /** The file as a reader finds it. */
  datatype LogFile = Absent | Unreadable | Present(contents: string)

  class UpdatedLog {
    var file: LogFile

    constructor (initial: LogFile)
      ensures file == initial
    {
      file := initial;
    }

    /** ioutil.WriteFile(path, date, 0644): the file now holds exactly `date`,
        whatever it held before. */
    method Write(date: string)
      modifies this
      ensures file == Present(date)
    {
      file := Present(date);
    }
  }
}
