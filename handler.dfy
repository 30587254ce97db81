/**
 * The `/sql/<path>` view `do` behind the `authorized` decorator: check the
 * credentials, resolve the template, choose the binding map and cursor
 * options, render, execute, and pair the fetched rows with their metadata.
 * The template engine and the database are the `render` and `execute`
 * parameters; `None` from `execute` stands for the exception it raises.
 * `TemplateNotFound` becomes the 404 reply wherever it is raised: by the
 * lookup, or by `render` for a template the body includes, extends or imports.
 * `jsonify` runs inside the view, so a row value the encoder cannot write
 * also ends in a server error.
 */
module Handler {
  import opened Wrappers
  import Templates
  import RequestOptions
  import Auth
  import Encoding
  import Metadata
  import opened Http

  datatype Request = Request(path: string, headers: Headers, args: Args)

  /** `template.render(params)`: the SQL text, `TemplateNotFound`, or any other exception. */
  datatype Rendering = Rendered(sql: string) | TemplateMissing | RenderFailed

  type Row = seq<Encoding.Value>

  /** `cursor.fetchall()` and `cursor.description` after `cursor.execute`. */
  datatype QueryResult = QueryResult(rows: seq<Row>, description: seq<Metadata.ColumnDescription>)

  /** `jsonify(metadata=metadata, data=data)` before serialisation. */
  datatype Payload = Payload(metadata: Metadata.ResultMetadata, data: seq<Row>)

  /** 401 from `abort`, 404 from the `TemplateNotFound` handler, 500 from any other exception, 200. */
  datatype Reply =
    | Unauthorized
    | NotFound(body: string)
    | ServerError
    | Ok(payload: Payload)

  /** The cursor options `do` opens its cursor with. */
  function CursorFor(req: Request): (c: RequestOptions.CursorOptions)
    ensures c.name.Some? <==> RequestOptions.CursorKey in req.args
    ensures c.name.Some? ==> c.name.value == Templates.TemplatePath(req.path)
    ensures c.factory == RequestOptions.NamedTupleFactory <==> RequestOptions.AssocKey in req.args
    ensures c.itersize.Some? <==> RequestOptions.ItersizeKey in req.args
    ensures c.itersize.Some? ==> c.itersize.value == req.args[RequestOptions.ItersizeKey]
  {
    RequestOptions.SelectCursor(Templates.TemplatePath(req.path), req.args)
  }

  /** `jsonify(data=data)` succeeds: every value of every row encodes. */
  predicate RowsEncode(rows: seq<Row>, baseEncodes: string -> bool)
    ensures RowsEncode(rows, baseEncodes) <==>
      forall i :: 0 <= i < |rows| ==> Encoding.Encodes(Encoding.Sequence(rows[i]), baseEncodes)
  {
    forall i, j :: 0 <= i < |rows| && 0 <= j < |rows[i]| ==> Encoding.Encodes(rows[i][j], baseEncodes)
  }

  method Serve(
    conf: Auth.Config,
    req: Request,
    store: map<string, string>,
    render: (string, Args) -> Rendering,
    execute: (RequestOptions.CursorOptions, string, Args) -> Option<QueryResult>,
    baseEncodes: string -> bool)
    returns (reply: Reply)
    ensures reply == Unauthorized <==> !Auth.Authorized(conf, req.headers, req.args)
    ensures reply.NotFound? <==>
      && Auth.Authorized(conf, req.headers, req.args)
      && (|| Templates.TemplatePath(req.path) !in store
          || render(store[Templates.TemplatePath(req.path)], req.args).TemplateMissing?)
    ensures reply.NotFound? ==> reply.body == "Not found"
    ensures reply.Ok? <==>
      && Auth.Authorized(conf, req.headers, req.args)
      && Templates.TemplatePath(req.path) in store
      && render(store[Templates.TemplatePath(req.path)], req.args).Rendered?
      && execute(CursorFor(req), render(store[Templates.TemplatePath(req.path)], req.args).sql, req.args).Some?
      && RowsEncode(execute(CursorFor(req), render(store[Templates.TemplatePath(req.path)], req.args).sql, req.args).value.rows, baseEncodes)
    ensures reply.Ok? ==>
      var sql := render(store[Templates.TemplatePath(req.path)], req.args).sql;
      var result := execute(CursorFor(req), sql, req.args).value;
      && reply.payload.data == result.rows
      && reply.payload.metadata.count == |result.rows|
      && |reply.payload.metadata.columns| == |result.description|
      && forall i :: 0 <= i < |result.description| ==>
           reply.payload.metadata.columns[i] == Metadata.Describe(result.description[i])
  {
    if !Auth.Authorized(conf, req.headers, req.args) {
      return Unauthorized;
    }

    var templatePath := Templates.TemplatePath(req.path);
    var template := Templates.GetTemplate(store, templatePath);
    if template.None? {
      return NotFound("Not found");
    }
    var params := RequestOptions.Params(req.args);
    var cursor := RequestOptions.SelectCursor(templatePath, req.args);

    var sql := render(template.value, params);
    if sql.TemplateMissing? {
      return NotFound("Not found");
    } else if sql.RenderFailed? {
      return ServerError;
    }
    var result := execute(cursor, sql.sql, params);
    if result.None? {
      return ServerError;
    }
    var metadata := Metadata.BuildMetadata(result.value.description, result.value.rows);
    if !RowsEncode(result.value.rows, baseEncodes) {
      return ServerError;
    }
    reply := Ok(Payload(metadata, result.value.rows));
  }
}
