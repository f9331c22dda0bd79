/** The project directory the tools work in. Paths are taken as the configuration gives them:
    resolving them against the current directory is not part of this model. */
module Store {
  import opened Text
  import opened Types

  /** `bernova.config.json`, held as the document it parses to, and the text of every other
      file by path. */
  class Workspace {
    var config: Option<Config>
    var files: map<string, string>

    constructor(config: Option<Config>, files: map<string, string>)
      ensures this.config == config && this.files == files
    {
      this.config := config;
      this.files := files;
    }
  }

  /** `let content = ''; if (await fileExists(path)) content = await readModuleFile(path);` */
  function ReadOrEmpty(files: map<string, string>, path: string): string {
    if path in files then files[path] else ""
  }

  /** The outcome of a tool that edits a module: a refusal that writes nothing, or the text
      written to one module file with the success response's data and message. */
  datatype Outcome<T> = Refuse(error: string) | Write(path: string, text: string, data: Option<T>, message: string)

  /** The response a tool returns for its outcome. */
  function Respond<T>(o: Outcome<T>): (r: Response<T>)
    ensures r.Failure? <==> o.Refuse?
    ensures o.Refuse? ==> r.error == o.error
    ensures o.Write? ==> r.data == o.data && r.message == o.message
  {
    match o
    case Refuse(e) => Failure(e)
    case Write(_, _, data, message) => Success(data, message)
  }

  /** The files after the outcome: only the written module changes. */
  function Apply<T>(files: map<string, string>, o: Outcome<T>): map<string, string> {
    match o
    case Refuse(_) => files
    case Write(path, text, _, _) => files[path := text]
  }

  /** Writing one module replaces that module's text and nothing else. */
  lemma ApplyWrite<T>(files: map<string, string>, path: string, text: string, data: Option<T>, message: string)
    ensures Apply(files, Write(path, text, data, message)) == files[path := text]
  {
  }
}
